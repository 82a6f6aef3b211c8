/** The record every path of the triage pipeline returns
    (`{"categoria", "resposta", "justificativa_curta"}`) and the fixed records
    the pipeline builds without asking the model. */
module Replies {
  import opened Chars
  import opened Profiles

  const Produtivo: string := "Produtivo"
  const Improdutivo: string := "Improdutivo"

  /** The reply of the spam builder, of the guard rail and of the sanitiser's
      default for an unproductive e-mail. */
  const ThanksReply: string := "Obrigado pela mensagem."
  const ReceivedReply: string := "Mensagem recebida."
  const FixFailedJustification: string := "Erro ao processar resposta da IA."
  const ErrorPrefix: string := "Erro ao processar ("

  /** The three fields of the dictionary the pipeline returns. */
  datatype Reply = Reply(categoria: string, resposta: string, justificativa: string)

  /** The contract of the pipeline's result: the category is one of the two
      labels and both text fields are non-empty. */
  predicate WellFormed(r: Reply) {
    && (r.categoria == Produtivo || r.categoria == Improdutivo)
    && r.resposta != []
    && r.justificativa != []
  }

  /** `spam_reply` / `gerar_resposta_spam`. */
  function SpamReply(p: Profile): (r: Reply)
    ensures ValidProfile(p) ==> WellFormed(r)
    ensures r.categoria == Improdutivo && r.resposta == ThanksReply
  {
    Reply(Improdutivo, ThanksReply, p.spamJustification)
  }

  /** `trivial_reply` / `gerar_resposta_trivial`. */
  function TrivialReply(p: Profile): (r: Reply)
    ensures ValidProfile(p) ==> WellFormed(r)
    ensures r.categoria == Improdutivo
  {
    Reply(Improdutivo, p.trivialReply, p.trivialJustification)
  }

  /** `noreply_email_reply` / `gerar_resposta_email_noreply`. */
  function NoReplyReply(p: Profile): (r: Reply)
    ensures ValidProfile(p) ==> WellFormed(r)
    ensures r.categoria == Improdutivo
  {
    Reply(Improdutivo, p.noReplyReply, p.noReplyJustification)
  }

  /** `_quota_fallback` / `gerar_resposta_quota_excedida`. */
  function QuotaFallback(p: Profile): (r: Reply)
    ensures ValidProfile(p) ==> WellFormed(r)
    ensures r.categoria == Produtivo
  {
    Reply(Produtivo, p.quotaReply, p.quotaJustification)
  }

  /** The record for an input that is empty after stripping. */
  function EmptyInputReply(p: Profile): (r: Reply)
    ensures ValidProfile(p) ==> WellFormed(r)
    ensures r.categoria == Improdutivo && r.resposta == ReceivedReply
  {
    Reply(Improdutivo, ReceivedReply, p.emptyJustification)
  }

  /** The record for a missing API key. */
  function NotConfiguredReply(p: Profile): (r: Reply)
    ensures ValidProfile(p) ==> WellFormed(r)
    ensures r.categoria == Produtivo && r.resposta == p.helpReply
  {
    Reply(Produtivo, p.helpReply, p.notConfiguredJustification)
  }

  /** The record when neither the answer nor the fixed answer could be read. */
  function FixFailedReply(p: Profile): (r: Reply)
    ensures ValidProfile(p) ==> WellFormed(r)
    ensures r.categoria == Produtivo && r.justificativa == FixFailedJustification
  {
    Reply(Produtivo, p.helpReply, FixFailedJustification)
  }

  /** The record for an exception that is not a quota error: its justification
      names the exception's type. */
  function ErrorReply(p: Profile, typeName: string): (r: Reply)
    ensures ValidProfile(p) ==> WellFormed(r)
    ensures r.categoria == Produtivo
    ensures |r.justificativa| == |ErrorPrefix| + |typeName| + 2
    ensures r.justificativa[..|ErrorPrefix|] == ErrorPrefix
    ensures r.justificativa[|ErrorPrefix|..|r.justificativa| - 2] == typeName
  {
    Reply(Produtivo, p.helpReply, ErrorPrefix + typeName + ").")
  }

  /** Different exception types give different error records. */
  lemma {:induction false} ErrorReplyNamesType(p: Profile, t1: string, t2: string)
    ensures ErrorReply(p, t1) == ErrorReply(p, t2) <==> t1 == t2
  {
    var j1, j2 := ErrorReply(p, t1).justificativa, ErrorReply(p, t2).justificativa;
    if j1 == j2 {
      assert t1 == j1[|ErrorPrefix|..|j1| - 2];
    }
  }

  /** The guard rail's override. */
  function GuardRailReply(p: Profile): (r: Reply)
    ensures ValidProfile(p) ==> WellFormed(r)
    ensures r.categoria == Improdutivo && r.resposta == ThanksReply
  {
    Reply(Improdutivo, ThanksReply, p.guardRailJustification)
  }
}
