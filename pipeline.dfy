/** `classify_and_reply` / `classificar_email_e_sugerir_resposta`: the rule
    cascade, the model call with its JSON recovery ladder, the guard rail and
    the failure boundary. The model is an oracle: a total function from the
    request sent to the outcome of the call, either the text of the answer
    or an exception with its message and type name. */
module Pipeline {
  import opened Chars
  import opened Json
  import opened Profiles
  import opened Replies
  import opened Rules
  import opened Spam
  import opened Prompts
  import opened Sanitizer
  import opened Recovery

  /** The temperatures the source asks for: the default 0.2 of `_call_ai`
      and the 0.0 of the fix-it call. */
  datatype Temperature = Default | Zero

  datatype Request = Request(prompt: string, temperature: Temperature)

  /** What `generate_content` gives: the answer's `text`, or an exception. */
  datatype Outcome = Answer(text: string) | Raised(message: string, typeName: string)

  // ---------------------------------------------------------------- pieces

  /** The deterministic rules, first match wins, on the stripped input. */
  function Settled(p: Profile, raw: string): (r: Option<Reply>)
    ensures ValidProfile(p) && r.Some? ==> WellFormed(r.value)
  {
    if raw == [] then Some(EmptyInputReply(p))
    else if IsSocial(p, raw) then Some(SocialReply(p, raw))
    else if IsTrivial(p, raw) then Some(TrivialReply(p))
    else if StrongSpam(p, raw) then Some(SpamReply(p))
    else if IsNoReply(raw) then Some(NoReplyReply(p))
    else None
  }

  /** The strict parse and then the loose repair of one stripped answer, each
      followed by the sanitiser; `None` when both raise. */
  function ReadAnswer(p: Profile, answer: string): (r: Option<Reply>)
    ensures ValidProfile(p) && r.Some? ==> WellFormed(r.value)
  {
    match ExtractJson(answer)
    case Parsed(m) => Some(Sanitize(p, m))
    case _ =>
      match RepairLoose(answer)
      case Some(m) => Some(Sanitize(p, m))
      case None => None
  }

  /** The `except Exception` handler around the model calls. */
  function Failure(p: Profile, message: string, typeName: string): (r: Reply)
    ensures ValidProfile(p) ==> WellFormed(r)
    ensures r.categoria == Produtivo
  {
    if IsQuota(message) then QuotaFallback(p) else ErrorReply(p, typeName)
  }

  /** The final check on a result read from the model: a Produtivo result
      for a spam, trivial or social input is replaced by the rail's record;
      every other result passes unchanged. */
  function GuardRail(p: Profile, raw: string, r: Reply): (g: Reply)
    ensures g.categoria == Produtivo ==> !StrongSpam(p, raw) && !IsTrivial(p, raw) && !IsSocial(p, raw)
    ensures (r.categoria == Produtivo && (StrongSpam(p, raw) || IsTrivial(p, raw) || IsSocial(p, raw)))
            ==> g == GuardRailReply(p)
    ensures !(StrongSpam(p, raw) || IsTrivial(p, raw) || IsSocial(p, raw)) ==> g == r
    ensures r.categoria != Produtivo ==> g == r
    ensures ValidProfile(p) && WellFormed(r) ==> WellFormed(g)
  {
    if r.categoria == Produtivo && (StrongSpam(p, raw) || IsTrivial(p, raw) || IsSocial(p, raw))
    then GuardRailReply(p)
    else r
  }

  /** The classification request for the stripped input. */
  function FirstRequest(p: Profile, t: Template, raw: string): Request {
    Request(BuildPrompt(t, LimitText(p, raw)), Default)
  }

  /** The fix-it request for the stripped, unreadable answer. */
  function FixRequest(t: Template, answer: string): Request {
    Request(BuildFixPrompt(t, answer), Zero)
  }

  // ------------------------------------------------------------ the whole

  /** The record the entry point returns. */
  function Triage(p: Profile, t: Template, email: string, apiKey: string, ai: Request -> Outcome): (r: Reply)
    ensures ValidProfile(p) ==> WellFormed(r)
  {
    var raw := Strip(email);
    match Settled(p, raw)
    case Some(r) => r
    case None => if apiKey == [] then NotConfiguredReply(p) else Consult(p, t, raw, ai)
  }

  /** The part inside the `try`: the first call and what follows it. */
  function Consult(p: Profile, t: Template, raw: string, ai: Request -> Outcome): (r: Reply)
    ensures ValidProfile(p) ==> WellFormed(r)
  {
    match ai(FirstRequest(p, t, raw))
    case Raised(msg, ty) => Failure(p, msg, ty)
    case Answer(a) => Reread(p, t, raw, Strip(a), ai)
  }

  /** The recovery ladder on the stripped first answer: read it, or ask for a
      fix and read that, or give up. */
  function Reread(p: Profile, t: Template, raw: string, answer: string, ai: Request -> Outcome): (r: Reply)
    ensures ValidProfile(p) ==> WellFormed(r)
  {
    match ReadAnswer(p, answer)
    case Some(r) => GuardRail(p, raw, r)
    case None =>
      match ai(FixRequest(t, answer))
      case Raised(msg, ty) => Failure(p, msg, ty)
      case Answer(b) =>
        match ReadAnswer(p, Strip(b))
        case Some(r) => GuardRail(p, raw, r)
        case None => FixFailedReply(p)
  }

  /** The requests the entry point sends to the model, in order. */
  function Requests(p: Profile, t: Template, email: string, apiKey: string, ai: Request -> Outcome): seq<Request> {
    var raw := Strip(email);
    if Settled(p, raw).Some? || apiKey == [] then [] else Sent(p, t, raw, ai)
  }

  /** The requests sent from inside the `try`. */
  function Sent(p: Profile, t: Template, raw: string, ai: Request -> Outcome): seq<Request> {
    var first := FirstRequest(p, t, raw);
    match ai(first)
    case Raised(_, _) => [first]
    case Answer(a) => [first] + FixesFor(p, t, Strip(a))
  }

  /** The entry point, step by step: early returns for the rules, one model
      call, the recovery ladder with at most one more call, the guard rail,
      and the handler that turns any exception into a record. */
  method ClassifyAndReply(p: Profile, t: Template, email: string, apiKey: string, ai: Request -> Outcome)
    returns (result: Reply, sent: seq<Request>)
    ensures result == Triage(p, t, email, apiKey, ai)
    ensures sent == Requests(p, t, email, apiKey, ai)
  {
    sent := [];
    var raw := Strip(email);
    if raw == [] {
      result := EmptyInputReply(p);
      return;
    }
    if IsSocial(p, raw) {
      result := SocialReply(p, raw);
      return;
    }
    if IsTrivial(p, raw) {
      result := TrivialReply(p);
      return;
    }
    var spam := IsStrongSpam(p, raw);
    if spam {
      result := SpamReply(p);
      return;
    }
    if IsNoReply(raw) {
      result := NoReplyReply(p);
      return;
    }
    if apiKey == [] {
      result := NotConfiguredReply(p);
      return;
    }
    result, sent := AskModel(p, t, raw, ai);
  }

  /** The body of the `try`: the first call, the recovery ladder with the
      fix-it call, and the guard rail; an exception from either call goes
      to the handler. */
  method AskModel(p: Profile, t: Template, raw: string, ai: Request -> Outcome)
    returns (result: Reply, sent: seq<Request>)
    ensures result == Consult(p, t, raw, ai)
    ensures sent == Sent(p, t, raw, ai)
  {
    var first := FirstRequest(p, t, raw);
    sent := [first];
    var outcome := ai(first);
    if outcome.Raised? {
      result := Failure(p, outcome.message, outcome.typeName);
      return;
    }
    var answer := Strip(outcome.text);
    var fixes;
    result, fixes := ReadLadder(p, t, raw, answer, ai);
    sent := sent + fixes;
    ConsultAnswered(p, t, raw, ai, outcome.text);
  }

  /** `Consult` once the first call has answered `a`. */
  lemma {:induction false} ConsultAnswered(p: Profile, t: Template, raw: string, ai: Request -> Outcome, a: string)
    requires ai(FirstRequest(p, t, raw)) == Answer(a)
    ensures Consult(p, t, raw, ai) == Reread(p, t, raw, Strip(a), ai)
  {
  }

  /** The fix-it request the ladder sends for the stripped answer, if any. */
  function FixesFor(p: Profile, t: Template, answer: string): seq<Request> {
    if ReadAnswer(p, answer).Some? then [] else [FixRequest(t, answer)]
  }

  /** The recovery ladder on the stripped first answer: the strict parse and
      the repair, then at most one fix-it call and the same two readings of
      its answer, then the guard rail. */
  method ReadLadder(p: Profile, t: Template, raw: string, answer: string, ai: Request -> Outcome)
    returns (result: Reply, fixes: seq<Request>)
    ensures result == Reread(p, t, raw, answer, ai)
    ensures fixes == FixesFor(p, t, answer)
  {
    fixes := [];
    var read := ReadAnswer(p, answer);
    if read.None? {
      var fix := FixRequest(t, answer);
      fixes := [fix];
      var fixed := ai(fix);
      if fixed.Raised? {
        result := Failure(p, fixed.message, fixed.typeName);
        return;
      }
      read := ReadAnswer(p, Strip(fixed.text));
      if read.None? {
        result := FixFailedReply(p);
        return;
      }
    }
    result := ApplyGuardRail(p, raw, read.value);
  }

  /** The guard rail as the entry point runs it, with the spam loop. */
  method ApplyGuardRail(p: Profile, raw: string, r: Reply) returns (g: Reply)
    ensures g == GuardRail(p, raw, r)
  {
    g := r;
    if r.categoria == Produtivo {
      var spam := IsStrongSpam(p, raw);
      if spam || IsTrivial(p, raw) || IsSocial(p, raw) {
        g := GuardRailReply(p);
      }
    }
  }

  // ---------------------------------------------------------------- lemmas

  /** A rule that fires decides the record before the configuration is read
      and before any call: empty input first, then social, trivial, spam and
      no-reply, in that order. */
  lemma {:induction false} RulesFirst(p: Profile, t: Template, email: string, apiKey: string, ai: Request -> Outcome)
    ensures var raw := Strip(email);
            Settled(p, raw).Some? ==>
              Triage(p, t, email, apiKey, ai) == Settled(p, raw).value
              && Requests(p, t, email, apiKey, ai) == []
    ensures Strip(email) == [] ==> Triage(p, t, email, apiKey, ai) == EmptyInputReply(p)
    ensures var raw := Strip(email);
            raw != [] && IsSocial(p, raw) ==> Triage(p, t, email, apiKey, ai) == SocialReply(p, raw)
    ensures var raw := Strip(email);
            raw != [] && !IsSocial(p, raw) && IsTrivial(p, raw) ==> Triage(p, t, email, apiKey, ai) == TrivialReply(p)
    ensures var raw := Strip(email);
            raw != [] && !IsSocial(p, raw) && !IsTrivial(p, raw) && StrongSpam(p, raw) ==>
              Triage(p, t, email, apiKey, ai) == SpamReply(p)
    ensures var raw := Strip(email);
            raw != [] && !IsSocial(p, raw) && !IsTrivial(p, raw) && !StrongSpam(p, raw) && IsNoReply(raw) ==>
              Triage(p, t, email, apiKey, ai) == NoReplyReply(p)
  {
  }

  /** Without a key the record is the "not configured" one and nothing is
      sent; with one, the model is consulted on the stripped input. */
  lemma {:induction false} KeyGate(p: Profile, t: Template, email: string, apiKey: string, ai: Request -> Outcome)
    requires Settled(p, Strip(email)).None?
    ensures apiKey == [] ==>
              Triage(p, t, email, apiKey, ai) == NotConfiguredReply(p) && Requests(p, t, email, apiKey, ai) == []
    ensures apiKey != [] ==>
              Triage(p, t, email, apiKey, ai) == Consult(p, t, Strip(email), ai)
              && Requests(p, t, email, apiKey, ai) == Sent(p, t, Strip(email), ai)
  {
  }

  /** The model is asked at most twice: first with the limited input at the
      default temperature, then, exactly when that answer cannot be read,
      with the fix-it prompt around the stripped answer at temperature
      zero. */
  lemma {:induction false} CallsMade(p: Profile, t: Template, raw: string, ai: Request -> Outcome)
    ensures var sent := Sent(p, t, raw, ai);
            && 1 <= |sent| <= 2
            && sent[0] == Request(BuildPrompt(t, LimitText(p, raw)), Default)
            && (|sent| == 2 <==> ai(sent[0]).Answer? && ReadAnswer(p, Strip(ai(sent[0]).text)).None?)
            && (|sent| == 2 ==> sent[1] == Request(BuildFixPrompt(t, Strip(ai(sent[0]).text)), Zero))
  {
  }

  /** An exception from the first call, or from the fix-it call, gives the
      quota record when its message names a quota error and otherwise the
      error record naming its type. */
  lemma {:induction false} FailureBoundary(p: Profile, t: Template, raw: string, ai: Request -> Outcome)
    ensures var o := ai(FirstRequest(p, t, raw));
            o.Raised? ==>
              Consult(p, t, raw, ai) == if IsQuota(o.message) then QuotaFallback(p) else ErrorReply(p, o.typeName)
    ensures var o := ai(FirstRequest(p, t, raw));
            o.Answer? && ReadAnswer(p, Strip(o.text)).None? ==>
              var f := ai(FixRequest(t, Strip(o.text)));
              f.Raised? ==>
                Consult(p, t, raw, ai) == if IsQuota(f.message) then QuotaFallback(p) else ErrorReply(p, f.typeName)
  {
  }

  /** When no rule fired, the guard rail never changes the record read from
      the model: the rules it re-checks already failed on the same input. */
  lemma {:induction false} GuardRailInert(p: Profile, raw: string, r: Reply)
    requires Settled(p, raw).None?
    ensures GuardRail(p, raw, r) == r
  {
  }

  /** The ladder's result when no rule fired: the first readable answer,
      sanitised, or the fixed record when neither answer can be read. */
  lemma {:induction false} LadderResult(p: Profile, t: Template, raw: string, answer: string, ai: Request -> Outcome)
    requires Settled(p, raw).None?
    ensures var result := Reread(p, t, raw, answer, ai);
            && (ReadAnswer(p, answer).Some? ==> result == ReadAnswer(p, answer).value)
            && (ReadAnswer(p, answer).None? && ai(FixRequest(t, answer)).Answer? ==>
                  var b := Strip(ai(FixRequest(t, answer)).text);
                  result == if ReadAnswer(p, b).Some? then ReadAnswer(p, b).value else FixFailedReply(p))
  {
    if ReadAnswer(p, answer).Some? {
      GuardRailInert(p, raw, ReadAnswer(p, answer).value);
    } else if ai(FixRequest(t, answer)).Answer? {
      var b := Strip(ai(FixRequest(t, answer)).text);
      if ReadAnswer(p, b).Some? {
        GuardRailInert(p, raw, ReadAnswer(p, b).value);
      }
    }
  }

  // ----------------------------------------------- answers read end to end

  /** The record's fields in the order the prompt asks for them. */
  function ReplyPairs(r: Reply): seq<(string, string)> {
    [("categoria", r.categoria), ("resposta", r.resposta), ("justificativa_curta", r.justificativa)]
  }

  lemma {:induction false} ReplyPairsMap(r: Reply)
    ensures ToMap(ReplyPairs(r)) == AsMap(r)
  {
    var fs := ReplyPairs(r);
    var f2 := [("categoria", r.categoria), ("resposta", r.resposta)];
    var f1 := [("categoria", r.categoria)];
    assert fs[..2] == f2 && f2[..1] == f1 && f1[..0] == [];
    assert ToMap(f1) == map["categoria" := r.categoria];
    assert ToMap(f2) == map["categoria" := r.categoria, "resposta" := r.resposta];
  }

  /** A record that is well formed, with stripped texts and no '}' in them. */
  predicate Dumpable(r: Reply) {
    && WellFormed(r) && IsStripped(r.resposta) && IsStripped(r.justificativa)
    && '}' !in r.resposta && '}' !in r.justificativa
  }

  lemma {:induction false} DumpableNoBraces(r: Reply)
    requires Dumpable(r)
    ensures NoBraces(ReplyPairs(r))
  {
  }

  /** A model answer that is `json.dumps(..., ensure_ascii=False)` of such a
      record, bare or in a ```json block, is read back as that record. */
  lemma {:induction false} DumpedAnswerRead(p: Profile, r: Reply, a: string)
    requires Dumpable(r)
    requires a == Dumps(ReplyPairs(r)) || a == Fenced(Dumps(ReplyPairs(r)))
    ensures ReadAnswer(p, a) == Some(r)
  {
    DumpableNoBraces(r);
    ExtractDumps(ReplyPairs(r));
    ReplyPairsMap(r);
    SanitizeKeepsWellFormed(p, r);
  }

  /** A model answer written in Python's quotes with a trailing comma, with
      plain texts, fails the strict parse and is read back by the loose
      repair as the record. */
  lemma {:induction false} SingleQuotedAnswerRead(p: Profile, r: Reply)
    requires WellFormed(r) && IsStripped(r.resposta) && IsStripped(r.justificativa)
    requires PlainPairs(ReplyPairs(r))
    ensures ReadAnswer(p, SingleQuoted(ReplyPairs(r))) == Some(r)
  {
    var pairs := ReplyPairs(r);
    ExtractSingleInvalid(pairs);
    RepairSingleQuoted(pairs);
    ReplyPairsMap(r);
    SanitizeKeepsWellFormed(p, r);
    ReadRepaired(p, SingleQuoted(pairs), AsMap(r), r);
  }

  /** An answer the strict stage finds invalid and the repair reads as `m`
      is read as the sanitised `m`. */
  lemma {:induction false} ReadRepaired(p: Profile, a: string, m: map<string, string>, r: Reply)
    requires ExtractJson(a) == Invalid && RepairLoose(a) == Some(m) && Sanitize(p, m) == r
    ensures ReadAnswer(p, a) == Some(r)
  {
  }

  /** A first answer that reads as a record is what the entry point returns,
      after that single call. */
  lemma {:induction false} AnswerKept(p: Profile, t: Template, email: string, apiKey: string, ai: Request -> Outcome, a: string, r: Reply)
    requires Settled(p, Strip(email)).None? && apiKey != []
    requires ai(FirstRequest(p, t, Strip(email))) == Answer(a) && ReadAnswer(p, Strip(a)) == Some(r)
    ensures Triage(p, t, email, apiKey, ai) == r
    ensures Requests(p, t, email, apiKey, ai) == [FirstRequest(p, t, Strip(email))]
  {
    LadderResult(p, t, Strip(email), Strip(a), ai);
    KeyGate(p, t, email, apiKey, ai);
  }

  /** End to end: when no rule fires, a key is set and the model answers
      with the dump of such a record, that record is returned after a single
      call. */
  lemma {:induction false} DumpedAnswerKept(p: Profile, t: Template, email: string, apiKey: string, ai: Request -> Outcome, r: Reply)
    requires Settled(p, Strip(email)).None? && apiKey != []
    requires Dumpable(r)
    requires ai(FirstRequest(p, t, Strip(email))) == Answer(Dumps(ReplyPairs(r)))
    ensures Triage(p, t, email, apiKey, ai) == r
    ensures Requests(p, t, email, apiKey, ai) == [FirstRequest(p, t, Strip(email))]
  {
    DumpedStripped(p, r);
    AnswerKept(p, t, email, apiKey, ai, Dumps(ReplyPairs(r)), r);
  }

  lemma {:induction false} DumpedStripped(p: Profile, r: Reply)
    requires Dumpable(r)
    ensures ReadAnswer(p, Strip(Dumps(ReplyPairs(r)))) == Some(r)
  {
    DumpsBraced(ReplyPairs(r));
    DumpedAnswerRead(p, r, Dumps(ReplyPairs(r)));
    BracedStripped(Dumps(ReplyPairs(r)));
  }

  lemma {:induction false} BracedStripped(d: string)
    requires |d| >= 2 && d[0] == '{' && d[|d| - 1] == '}'
    ensures Strip(d) == d
  {
    StripFixed(d);
  }

  /** End to end: a Python-quoted first answer with plain texts is repaired
      into the record, again after a single call. */
  lemma {:induction false} RepairedAnswerKept(p: Profile, t: Template, email: string, apiKey: string, ai: Request -> Outcome, r: Reply)
    requires Settled(p, Strip(email)).None? && apiKey != []
    requires WellFormed(r) && IsStripped(r.resposta) && IsStripped(r.justificativa)
    requires PlainPairs(ReplyPairs(r))
    requires ai(FirstRequest(p, t, Strip(email))) == Answer(SingleQuoted(ReplyPairs(r)))
    ensures Triage(p, t, email, apiKey, ai) == r
    ensures Requests(p, t, email, apiKey, ai) == [FirstRequest(p, t, Strip(email))]
  {
    var q := SingleQuoted(ReplyPairs(r));
    assert q[0] == '{' && q[|q| - 1] == '}';
    BracedStripped(q);
    SingleQuotedAnswerRead(p, r);
    AnswerKept(p, t, email, apiKey, ai, q, r);
  }
}
