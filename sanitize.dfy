/** `_sanitize_result` (app/services/ai_client.py) and `sanitizar_resultado_ia`
    (app/services/cliente_ia.py): turn whatever object the model produced into
    a well-formed reply record. */
module Sanitizer {
  import opened Chars
  import opened Profiles
  import opened Replies

  /** `data.get(key, default)`. */
  function Get(data: map<string, string>, key: string, default: string): string {
    if key in data then data[key] else default
  }

  /** The reply text used when the model's reply is blank. */
  function DefaultReply(p: Profile, categoria: string): string {
    if categoria == Improdutivo then ThanksReply else p.helpReply
  }

  /** The sanitiser: an unknown or missing category becomes Produtivo, the two
      texts are stripped, and blank texts are replaced by defaults. */
  function Sanitize(p: Profile, data: map<string, string>): (r: Reply)
    ensures ValidProfile(p) ==> WellFormed(r)
    ensures ValidProfile(p) ==> IsStripped(r.resposta) && IsStripped(r.justificativa)
    ensures r.categoria == Improdutivo <==> "categoria" in data && data["categoria"] == Improdutivo
    ensures Strip(Get(data, "resposta", "")) != [] ==> r.resposta == Strip(Get(data, "resposta", ""))
    ensures Strip(Get(data, "resposta", "")) == [] ==> r.resposta == DefaultReply(p, r.categoria)
    ensures Strip(Get(data, "justificativa_curta", "")) != [] ==>
              r.justificativa == Strip(Get(data, "justificativa_curta", ""))
    ensures Strip(Get(data, "justificativa_curta", "")) == [] ==> r.justificativa == p.defaultJustification
  {
    var c := Get(data, "categoria", Produtivo);
    var categoria := if c == Produtivo || c == Improdutivo then c else Produtivo;
    var resposta := Strip(Get(data, "resposta", ""));
    var justificativa := Strip(Get(data, "justificativa_curta", ""));
    assert IsStripped(ThanksReply) by {
      assert ThanksReply[0] == 'O' && ThanksReply[|ThanksReply| - 1] == '.';
    }
    Reply(categoria,
          if resposta == [] then DefaultReply(p, categoria) else resposta,
          if justificativa == [] then p.defaultJustification else justificativa)
  }

  /** The dictionary the pipeline returns for a record. */
  function AsMap(r: Reply): map<string, string> {
    map["categoria" := r.categoria, "resposta" := r.resposta, "justificativa_curta" := r.justificativa]
  }

  /** Sanitising a sanitised record changes nothing. */
  lemma {:induction false} SanitizeIdempotent(p: Profile, data: map<string, string>)
    requires ValidProfile(p)
    ensures Sanitize(p, AsMap(Sanitize(p, data))) == Sanitize(p, data)
  {
    var r := Sanitize(p, data);
    var m := AsMap(r);
    assert Get(m, "resposta", "") == r.resposta;
    assert Get(m, "justificativa_curta", "") == r.justificativa;
    StripFixed(r.resposta);
    StripFixed(r.justificativa);
  }

  /** A record that is already well formed, with stripped texts, passes through
      the sanitiser unchanged. */
  lemma {:induction false} SanitizeKeepsWellFormed(p: Profile, r: Reply)
    requires WellFormed(r) && IsStripped(r.resposta) && IsStripped(r.justificativa)
    ensures Sanitize(p, AsMap(r)) == r
  {
    var m := AsMap(r);
    assert Get(m, "resposta", "") == r.resposta;
    assert Get(m, "justificativa_curta", "") == r.justificativa;
    StripFixed(r.resposta);
    StripFixed(r.justificativa);
  }
}
