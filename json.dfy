/** `json.loads` as the pipeline uses it, restricted to documents that are one
    flat object whose values are strings: CPython's decoder over the whole
    text (JSON whitespace allowed around the object, anything else after it
    is "Extra data"), with strict strings (no raw control characters), the
    escapes of RFC 8259, and dictionaries in which a repeated key keeps its
    last value. A `\u` escape of a surrogate must be half of a high-low
    pair: CPython keeps a lone surrogate in the string, but a `char` cannot
    hold one, so such a document fails here. Each parser takes the text that
    remains and returns what it read with the text after it. */
module Json {
  datatype Option<T> = None | Some(value: T)

  /** The whitespace of the JSON grammar. */
  predicate IsJsonSpace(c: char) {
    c == ' ' || c == '\t' || c == '\n' || c == '\r'
  }

  /** The text after the run of JSON whitespace at the start of `s`. */
  function SkipWs(s: string): (r: string)
    ensures |r| <= |s|
    ensures r != [] ==> !IsJsonSpace(r[0])
  {
    if s != [] && IsJsonSpace(s[0]) then SkipWs(s[1..]) else s
  }

  // ------------------------------------------------------------- strings

  function HexVal(c: char): Option<nat> {
    if '0' <= c <= '9' then Some(c as int - '0' as int)
    else if 'a' <= c <= 'f' then Some(c as int - 'a' as int + 10)
    else if 'A' <= c <= 'F' then Some(c as int - 'A' as int + 10)
    else None
  }

  /** The four hexadecimal digits of a `\u` escape. */
  function Hex4(h: string): (r: Option<nat>)
    requires |h| == 4
    ensures r.Some? ==> r.value < 0x10000
  {
    match (HexVal(h[0]), HexVal(h[1]), HexVal(h[2]), HexVal(h[3]))
    case (Some(a), Some(b), Some(c), Some(d)) =>
      assert a < 16 && b < 16 && c < 16 && d < 16;
      Some(((a * 16 + b) * 16 + c) * 16 + d)
    case _ => None
  }

  /** The character of a one-letter escape `\x`. */
  function SimpleEscape(c: char): Option<char> {
    match c
    case '"' => Some('"')
    case '\\' => Some('\\')
    case '/' => Some('/')
    case 'b' => Some('\U{0008}')
    case 'f' => Some('\U{000C}')
    case 'n' => Some('\n')
    case 'r' => Some('\r')
    case 't' => Some('\t')
    case _ => None
  }

  predicate IsHighSurrogate(n: nat) { 0xD800 <= n <= 0xDBFF }
  predicate IsLowSurrogate(n: nat) { 0xDC00 <= n <= 0xDFFF }

  /** A `\u` escape at the start of `s`: the character and the text after
      it. A high surrogate must be followed by an escaped low surrogate; the
      pair makes one character. A lone surrogate, which CPython keeps, fails
      here. */
  function UnicodeEscape(s: string): (r: Option<(char, string)>)
    requires |s| >= 2
    ensures r.Some? ==> |r.value.1| <= |s| - 6
  {
    if |s| < 6 then None
    else match Hex4(s[2..6])
      case None => None
      case Some(hi) =>
        if IsLowSurrogate(hi) then None
        else if !IsHighSurrogate(hi) then Some((hi as char, s[6..]))
        else if |s| >= 12 && s[6] == '\\' && s[7] == 'u' then
          match Hex4(s[8..12])
          case Some(lo) =>
            if IsLowSurrogate(lo) then
              Some(((0x10000 + (hi - 0xD800) * 0x400 + (lo - 0xDC00)) as char, s[12..]))
            else None
          case None => None
        else None
  }

  /** The character at the start of `s` inside a string literal (not the
      closing quote): an escape or a character other than a control
      character, with the text after it. */
  function CharAt(s: string): (r: Option<(char, string)>)
    requires s != []
    ensures r.Some? ==> |r.value.1| < |s|
  {
    if s[0] == '\\' then
      if |s| == 1 then None
      else if s[1] == 'u' then UnicodeEscape(s)
      else match SimpleEscape(s[1])
        case None => None
        case Some(c) => Some((c, s[2..]))
    else if s[0] < ' ' then None
    else Some((s[0], s[1..]))
  }

  /** The characters of a string literal up to its closing quote (`s` starts
      just after the opening quote), and the text after that quote. */
  function StringChars(s: string): (r: Option<(string, string)>)
    ensures r.Some? ==> |r.value.1| < |s|
    decreases |s|
  {
    if s == [] then None
    else if s[0] == '"' then Some(([], s[1..]))
    else match CharAt(s)
      case None => None
      case Some((c, rest)) =>
        match StringChars(rest)
        case None => None
        case Some((cs, t)) => Some(([c] + cs, t))
  }

  // ------------------------------------------------------------- objects

  /** A string literal at the start of `s`: its characters and the text
      after its closing quote. */
  function ParseString(s: string): (r: Option<(string, string)>)
    ensures r.Some? ==> |r.value.1| < |s|
  {
    if s == [] || s[0] != '"' then None else StringChars(s[1..])
  }

  /** One member `"key" : "value"`, and the text after the value. */
  function ParseMember(s: string): (r: Option<(string, string, string)>)
    ensures r.Some? ==> |r.value.2| < |s|
  {
    match ParseString(s)
    case None => None
    case Some((key, r1)) =>
      var r2 := SkipWs(r1);
      if r2 == [] || r2[0] != ':' then None
      else
        match ParseString(SkipWs(r2[1..]))
        case None => None
        case Some((v, r3)) => Some((key, v, r3))
  }

  /** The members of an object from its first key to the closing brace, and
      the text after the brace. */
  function ParseMembers(s: string): (r: Option<(seq<(string, string)>, string)>)
    ensures r.Some? ==> |r.value.1| < |s|
    decreases |s|
  {
    match ParseMember(s)
    case None => None
    case Some((key, v, r1)) =>
      var r2 := SkipWs(r1);
      if r2 == [] then None
      else if r2[0] == '}' then Some(([(key, v)], r2[1..]))
      else if r2[0] == ',' then
        match ParseMembers(SkipWs(r2[1..]))
        case None => None
        case Some((fs, t)) => Some(([(key, v)] + fs, t))
      else None
  }

  /** An object at the start of `s` (at its opening brace), and the text after
      it. */
  function ParseObject(s: string): (r: Option<(seq<(string, string)>, string)>)
    requires s != [] && s[0] == '{'
  {
    var r1 := SkipWs(s[1..]);
    if r1 != [] && r1[0] == '}' then Some(([], r1[1..])) else ParseMembers(r1)
  }

  /** A whole document: one object between optional whitespace; a leading
      byte-order mark is refused. */
  function ParseDocument(s: string): Option<seq<(string, string)>> {
    var r := SkipWs(s);
    if s != [] && s[0] == '\U{FEFF}' then None
    else if r == [] || r[0] != '{' then None
    else
      match ParseObject(r)
      case None => None
      case Some((fs, t)) => if SkipWs(t) == [] then Some(fs) else None
  }

  /** The dictionary of an object's members: a repeated key keeps its last
      value. */
  function ToMap(fs: seq<(string, string)>): (m: map<string, string>)
    ensures forall k :: k in m <==> exists i :: 0 <= i < |fs| && fs[i].0 == k
  {
    if fs == [] then map[]
    else
      var m0 := ToMap(fs[..|fs| - 1]);
      assert forall i :: 0 <= i < |fs| - 1 ==> fs[..|fs| - 1][i] == fs[i];
      m0[fs[|fs| - 1].0 := fs[|fs| - 1].1]
  }

  /** `json.loads(s)` for a flat object of strings; `None` when it raises. */
  function Loads(s: string): Option<map<string, string>> {
    match ParseDocument(s)
    case Some(fs) => Some(ToMap(fs))
    case None => None
  }

  /** The value of a key in the dictionary is the one of its last member. */
  lemma {:induction false} ToMapLast(fs: seq<(string, string)>, i: nat)
    requires i < |fs| && forall j :: i < j < |fs| ==> fs[j].0 != fs[i].0
    ensures fs[i].0 in ToMap(fs) && ToMap(fs)[fs[i].0] == fs[i].1
    decreases |fs|
  {
    if i < |fs| - 1 {
      var front := fs[..|fs| - 1];
      assert front[i] == fs[i];
      forall j | i < j < |front|
        ensures front[j].0 != front[i].0
      {
        assert front[j] == fs[j];
      }
      ToMapLast(front, i);
    }
  }

  // ------------------------------------------------- serialisation partner

  function HexDigit(d: nat): char
    requires d < 16
  {
    if d < 10 then ('0' as int + d) as char else ('a' as int + d - 10) as char
  }

  /** The characters `json.dumps` writes as a backslash and one letter. */
  predicate HasShortEscape(c: char) {
    c == '"' || c == '\\' || c == '\n' || c == '\r' || c == '\t' || c == '\U{0008}' || c == '\U{000C}'
  }

  /** The letter after the backslash. */
  function ShortCode(c: char): char
    requires HasShortEscape(c)
  {
    if c == '\n' then 'n'
    else if c == '\r' then 'r'
    else if c == '\t' then 't'
    else if c == '\U{0008}' then 'b'
    else if c == '\U{000C}' then 'f'
    else c
  }

  /** One character as `json.dumps(..., ensure_ascii=False)` writes it: a
      backslash and a letter, `\u00XX` for the other control characters,
      otherwise the character itself. */
  function EscapeChar(c: char): string {
    if HasShortEscape(c) then ['\\', ShortCode(c)]
    else if c < ' ' then
      ['\\', 'u', '0', '0', if c < '\U{0010}' then '0' else '1',
       HexDigit(if c < '\U{0010}' then c as int else c as int - 16)]
    else [c]
  }

  function Escape(str: string): string {
    if str == [] then [] else EscapeChar(str[0]) + Escape(str[1..])
  }

  /** `json.dumps(..., ensure_ascii=False)` of a string. */
  function Quote(str: string): string {
    "\"" + Escape(str) + "\""
  }

  /** The separators between members this model writes: `json.dumps`'s
      default `", "`, and the bare `","` that the loose repair leaves. */
  predicate IsSeparator(sep: string) {
    sep == ", " || sep == ","
  }

  /** The members of a dictionary of strings, in insertion order, each key
      and value joined by `": "`, the members joined by `sep`. */
  function DumpsMembers(pairs: seq<(string, string)>, sep: string): string
    requires pairs != []
  {
    Quote(pairs[0].0) + ": " + Quote(pairs[0].1)
    + (if |pairs| == 1 then "" else sep + DumpsMembers(pairs[1..], sep))
  }

  /** `json.dumps(..., ensure_ascii=False)` of a dictionary of strings, with
      the default separators. */
  function Dumps(pairs: seq<(string, string)>): string {
    if pairs == [] then "{}" else "{" + DumpsMembers(pairs, ", ") + "}"
  }

  // ------------------------------------------------- reading back a dump

  /** The letter of a short escape reads back as the character. */
  lemma {:induction false} ShortCodeDecodes(c: char)
    requires HasShortEscape(c)
    ensures ShortCode(c) != 'u' && SimpleEscape(ShortCode(c)) == Some(c)
  {
  }

  /** What follows a prefix of known length. */
  lemma {:induction false} AfterPrefix(a: string, w: string, n: nat)
    requires n == |a|
    ensures (a + w)[n..] == w
  {
  }

  /** The escape `json.dumps` writes for `c`, in front of `w`, decodes to `c`
      with `w` after it. */
  lemma {:induction false} EscapeCharDecodes(c: char, w: string)
    ensures EscapeChar(c) + w != [] && (EscapeChar(c) + w)[0] != '"'
    ensures CharAt(EscapeChar(c) + w) == Some((c, w))
  {
    var e := EscapeChar(c);
    AfterPrefix(e, w, |e|);
    if HasShortEscape(c) {
      ShortCharDecodes(c, e, w);
    } else if c < ' ' {
      ControlCharDecodes(c, e, w);
    } else {
      assert (e + w)[0] == c;
    }
  }

  lemma {:induction false} ShortCharDecodes(c: char, e: string, w: string)
    requires HasShortEscape(c) && e == EscapeChar(c) && (e + w)[2..] == w
    ensures (e + w)[0] == '\\' && CharAt(e + w) == Some((c, w))
  {
    assert (e + w)[0] == '\\' && (e + w)[1] == ShortCode(c);
    ShortCodeDecodes(c);
  }

  lemma {:induction false} ControlCharDecodes(c: char, e: string, w: string)
    requires !HasShortEscape(c) && c < ' ' && e == EscapeChar(c) && (e + w)[6..] == w
    ensures (e + w)[0] == '\\' && CharAt(e + w) == Some((c, w))
  {
    var s := e + w;
    assert s[0] == '\\' && s[1] == 'u';
    ControlHexDecodes(c, e, s[2..6]);
    assert UnicodeEscape(s) == Some((c, w));
  }

  /** The four digits of the `\u00XX` escape of a control character. */
  lemma {:induction false} ControlHexDecodes(c: char, e: string, h: string)
    requires !HasShortEscape(c) && c < ' ' && e == EscapeChar(c)
    requires |h| == 4 && h == e[2..6]
    ensures Hex4(h) == Some(c as int)
  {
    var n := c as int;
    assert h[0] == '0' && h[1] == '0';
    if n < 16 {
      assert h[2] == '0' && h[3] == HexDigit(n);
    } else {
      assert h[2] == '1' && h[3] == HexDigit(n - 16);
    }
  }

  /** One decoded character in front of the decoded rest. */
  lemma {:induction false} StepChar(s: string, c: char, rest: string, cs: string, t: string)
    requires s != [] && s[0] != '"' && CharAt(s) == Some((c, rest))
    requires StringChars(rest) == Some((cs, t))
    ensures StringChars(s) == Some(([c] + cs, t))
  {
  }

  /** The escaped text of a string, then its closing quote, reads back as the
      string with what follows the quote. */
  lemma {:induction false} EscapeParses(str: string, u: string, t: string)
    requires u == "\"" + t
    ensures StringChars(Escape(str) + u) == Some((str, t))
    decreases |str|
  {
    if str == [] {
      assert Escape(str) + u == u;
      AfterPrefix("\"", t, 1);
    } else {
      var c, e := str[0], EscapeChar(str[0]);
      var w := Escape(str[1..]) + u;
      EscapeCons(str, e, Escape(str[1..]), u);
      EscapeCharDecodes(c, w);
      EscapeParses(str[1..], u, t);
      StepChar(e + w, c, w, str[1..], t);
      assert [c] + str[1..] == str;
    }
  }

  lemma {:induction false} EscapeCons(str: string, e: string, et: string, u: string)
    requires str != [] && e == EscapeChar(str[0]) && et == Escape(str[1..])
    ensures Escape(str) + u == e + (et + u)
  {
    assert Escape(str) == e + et;
  }

  /** A string as `json.dumps` writes it reads back as itself. */
  lemma {:induction false} QuoteParses(str: string, t: string)
    ensures ParseString(Quote(str) + t) == Some((str, t))
  {
    var e := Escape(str);
    var s := Quote(str) + t;
    QuoteSplit(e, t, s);
    EscapeParses(str, "\"" + t, t);
  }

  lemma {:induction false} QuoteSplit(e: string, t: string, s: string)
    requires s == "\"" + e + "\"" + t
    ensures s != [] && s[0] == '"' && s[1..] == e + ("\"" + t)
  {
    assert s == "\"" + (e + ("\"" + t));
    AfterPrefix("\"", e + ("\"" + t), 1);
  }

  /** Skipping whitespace in front of a non-space character. */
  lemma {:induction false} SkipOne(c: char, x: string)
    requires IsJsonSpace(c) && x != [] && !IsJsonSpace(x[0])
    ensures SkipWs([c] + x) == x
  {
    AfterPrefix([c], x, 1);
    assert SkipWs(x) == x;
  }

  /** The `": "` between a key and its value, then the value. */
  lemma {:induction false} ColonParses(val: string, r: string, w: string)
    requires w == ": " + (Quote(val) + r)
    ensures SkipWs(w) == w && w[0] == ':'
    ensures ParseString(SkipWs(w[1..])) == Some((val, r))
  {
    var x := Quote(val) + r;
    AfterPrefix(":", " " + x, 1);
    assert w == ":" + (" " + x);
    assert x[0] == '"';
    SkipOne(' ', x);
    QuoteParses(val, r);
  }

  /** One member as `json.dumps` writes it reads back as itself. */
  lemma {:induction false} MemberParses(key: string, val: string, r: string)
    ensures ParseMember(Quote(key) + (": " + (Quote(val) + r))) == Some((key, val, r))
  {
    var w := ": " + (Quote(val) + r);
    QuoteParses(key, w);
    ColonParses(val, r, w);
  }

  /** A dump of members, then more text, as one member and what follows it. */
  lemma {:induction false} DumpsMembersSplit(pairs: seq<(string, string)>, sep: string, u: string, tail: string)
    requires pairs != [] && tail == if |pairs| == 1 then "" else sep + DumpsMembers(pairs[1..], sep)
    ensures DumpsMembers(pairs, sep) + u == Quote(pairs[0].0) + (": " + (Quote(pairs[0].1) + (tail + u)))
  {
    Assoc4(Quote(pairs[0].0), ": ", Quote(pairs[0].1), tail, u);
  }

  lemma {:induction false} Assoc4(a: string, b: string, c: string, d: string, u: string)
    ensures a + b + c + d + u == a + (b + (c + (d + u)))
  {
  }

  /** The members as this model writes them, the closing brace and more text
      read back as the members with that text after them. */
  lemma {:induction false} MembersParse(pairs: seq<(string, string)>, sep: string, t: string)
    requires pairs != [] && IsSeparator(sep)
    ensures ParseMembers(DumpsMembers(pairs, sep) + ("}" + t)) == Some((pairs, t))
    decreases |pairs|
  {
    if |pairs| == 1 {
      LastMemberParses(pairs, sep, t);
    } else {
      MembersParse(pairs[1..], sep, t);
      NextMemberParses(pairs, sep, t);
    }
  }

  lemma {:induction false} LastMemberParses(pairs: seq<(string, string)>, sep: string, t: string)
    requires |pairs| == 1
    ensures ParseMembers(DumpsMembers(pairs, sep) + ("}" + t)) == Some((pairs, t))
  {
    var key, val := pairs[0].0, pairs[0].1;
    var u := "}" + t;
    DumpsMembersSplit(pairs, sep, u, "");
    assert "" + u == u;
    MemberParses(key, val, u);
    AfterPrefix("}", t, 1);
    MembersClose(DumpsMembers(pairs, sep) + u, key, val, u, t);
    assert pairs == [(key, val)];
  }

  lemma {:induction false} NextMemberParses(pairs: seq<(string, string)>, sep: string, t: string)
    requires |pairs| > 1 && IsSeparator(sep)
    requires ParseMembers(DumpsMembers(pairs[1..], sep) + ("}" + t)) == Some((pairs[1..], t))
    ensures ParseMembers(DumpsMembers(pairs, sep) + ("}" + t)) == Some((pairs, t))
  {
    var key, val := pairs[0].0, pairs[0].1;
    var u := "}" + t;
    var rest := DumpsMembers(pairs[1..], sep);
    var tail := sep + rest;
    var x := rest + u;
    DumpsMembersSplit(pairs, sep, u, tail);
    MemberParses(key, val, tail + u);
    DumpsStartsWithQuote(pairs[1..], sep, u);
    var r := CommaSplit(rest, sep, u, tail, x);
    MembersComma(DumpsMembers(pairs, sep) + u, key, val, tail + u, x, pairs[1..], t);
    ConsPairs(pairs);
  }

  /** The separator in front of the other members. */
  lemma {:induction false} CommaSplit(rest: string, sep: string, u: string, tail: string, x: string) returns (r: string)
    requires IsSeparator(sep) && tail == sep + rest && x == rest + u && x != [] && x[0] == '"'
    ensures r == tail + u && r != [] && r[0] == ',' && SkipWs(r[1..]) == x
  {
    r := tail + u;
    if sep == ", " {
      assert r == "," + (" " + x);
      AfterPrefix(",", " " + x, 1);
      SkipOne(' ', x);
    } else {
      assert r == "," + x;
      AfterPrefix(",", x, 1);
      assert SkipWs(x) == x;
    }
  }

  lemma {:induction false} DumpsStartsWithQuote(pairs: seq<(string, string)>, sep: string, u: string)
    requires pairs != []
    ensures DumpsMembers(pairs, sep) + u != [] && (DumpsMembers(pairs, sep) + u)[0] == '"'
  {
    var q := Quote(pairs[0].0);
    assert q[0] == '"';
    assert DumpsMembers(pairs, sep) == q + (": " + Quote(pairs[0].1)
                                       + (if |pairs| == 1 then "" else sep + DumpsMembers(pairs[1..], sep)));
  }

  lemma {:induction false} ConsPairs(pairs: seq<(string, string)>)
    requires pairs != []
    ensures pairs == [(pairs[0].0, pairs[0].1)] + pairs[1..]
  {
  }

  /** The last member, then the closing brace. */
  lemma {:induction false} MembersClose(s: string, key: string, v: string, r: string, t: string)
    requires ParseMember(s) == Some((key, v, r))
    requires r != [] && r[0] == '}' && r[1..] == t
    ensures ParseMembers(s) == Some(([(key, v)], t))
  {
    assert SkipWs(r) == r;
  }

  /** A member, a comma and a space, then the other members. */
  lemma {:induction false} MembersComma(s: string, key: string, v: string, r: string, x: string,
                                        fs: seq<(string, string)>, t: string)
    requires ParseMember(s) == Some((key, v, r))
    requires r != [] && r[0] == ',' && SkipWs(r[1..]) == x
    requires ParseMembers(x) == Some((fs, t))
    ensures ParseMembers(s) == Some(([(key, v)] + fs, t))
  {
    assert SkipWs(r) == r;
  }

  /** `json.loads(json.dumps(d, ensure_ascii=False))` gives back `d` for a dictionary of strings. */
  lemma {:induction false} LoadsDumps(pairs: seq<(string, string)>)
    ensures Loads(Dumps(pairs)) == Some(ToMap(pairs))
  {
    if pairs == [] {
      EmptyObjectLoads(Dumps(pairs));
    } else {
      LoadsMembers(pairs, ", ");
    }
  }

  /** An object whose members are written as `DumpsMembers` writes them, with
      either separator, reads back as their dictionary. */
  lemma {:induction false} LoadsMembers(pairs: seq<(string, string)>, sep: string)
    requires pairs != [] && IsSeparator(sep)
    ensures Loads("{" + DumpsMembers(pairs, sep) + "}") == Some(ToMap(pairs))
  {
    var s := "{" + DumpsMembers(pairs, sep) + "}";
    var x := DumpsMembers(pairs, sep) + ("}" + "");
    DumpsFrame(pairs, sep, s, x);
    MembersParse(pairs, sep, "");
    ObjectLoads(s, x, pairs);
  }

  /** Where the members and the braces of an object's text are. */
  lemma {:induction false} DumpsFrame(pairs: seq<(string, string)>, sep: string, s: string, x: string)
    requires pairs != [] && s == "{" + DumpsMembers(pairs, sep) + "}" && x == DumpsMembers(pairs, sep) + ("}" + "")
    ensures s != [] && s[0] == '{' && s[1..] == x && x[0] == '"'
  {
    assert s == "{" + x;
    AfterPrefix("{", x, 1);
    DumpsStartsWithQuote(pairs, sep, "}" + "");
  }

  lemma {:induction false} EmptyObjectLoads(s: string)
    requires s == "{}"
    ensures Loads(s) == Some(ToMap([]))
  {
    assert s[1..] == "}";
    assert SkipWs(s) == s && SkipWs(s[1..]) == s[1..] && SkipWs([]) == [];
  }

  /** A text that is one object with members reads back as their
      dictionary. */
  lemma {:induction false} ObjectLoads(s: string, x: string, fs: seq<(string, string)>)
    requires s != [] && s[0] == '{' && s[1..] == x && x != [] && x[0] == '"'
    requires ParseMembers(x) == Some((fs, []))
    ensures Loads(s) == Some(ToMap(fs))
  {
    assert SkipWs(s) == s && SkipWs(x) == x && SkipWs([]) == [];
    assert ParseObject(s) == Some((fs, []));
  }
}
