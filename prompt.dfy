/** What the pipeline sends to the model: the e-mail cut to a size the model
    accepts (`_limit_text_for_ai` / `limitar_texto_para_ia`), the
    classification prompt (`build_prompt` / `construir_prompt_classificacao`) and the
    prompt that asks the model to rewrite an answer as JSON
    (`build_fix_json_prompt` / `construir_prompt_correcao_json`). */
module Prompts {
  import opened Chars
  import opened Profiles

  // ------------------------------------------------------------- limit

  /** The default `max_chars`. */
  const MaxChars: nat := 6000
  /** `int(6000 * 0.7)`, the head kept by the default call. */
  const HeadChars: nat := 4200

  /** Python's `t[-n:]`; `t[-0:]` is the whole string. */
  function LastChars(t: string, n: nat): (r: string)
    requires n <= |t|
    ensures n > 0 ==> |r| == n && r == t[|t| - n..]
    ensures n == 0 ==> r == t
  {
    if n == 0 then t else t[|t| - n..]
  }

  /** The limit with an explicit head size (`head = int(max_chars * 0.7)`). */
  function LimitWith(marker: string, text: string, maxChars: nat, head: nat): (r: string)
    requires head <= maxChars
  {
    var t := Strip(text);
    if |t| <= maxChars then t
    else t[..head] + marker + LastChars(t, maxChars - head)
  }

  /** The default call: 6000 characters, 4200 of them from the head. */
  function LimitText(p: Profile, text: string): string {
    LimitWith(p.truncationMarker, text, MaxChars, HeadChars)
  }

  /** A short text is only stripped; a long one keeps its first `head` and
      last `max - head` characters around the marker, so the result is never
      longer than the limit plus the marker. */
  lemma {:induction false} LimitShape(marker: string, text: string, maxChars: nat, head: nat)
    requires head < maxChars
    ensures var t := Strip(text);
            var r := LimitWith(marker, text, maxChars, head);
            && (|t| <= maxChars ==> r == t)
            && (|t| > maxChars ==>
                  && |r| == maxChars + |marker|
                  && r[..head] == t[..head]
                  && r[head..head + |marker|] == marker
                  && r[head + |marker|..] == t[|t| - (maxChars - head)..])
  {
    var t := Strip(text);
    if |t| > maxChars {
      var tail := t[|t| - (maxChars - head)..];
      var r := LimitWith(marker, text, maxChars, head);
      assert r == t[..head] + marker + tail;
      assert r[..head] == t[..head];
      assert r[head..head + |marker|] == marker;
      assert r[head + |marker|..] == tail;
    }
  }

  /** Whenever the result differs from the stripped text, the text was over
      the limit and the marker is in the result. */
  lemma {:induction false} LimitTruncatesOnlyLong(marker: string, text: string, maxChars: nat, head: nat)
    requires head <= maxChars
    ensures var t := Strip(text);
            var r := LimitWith(marker, text, maxChars, head);
            r != t ==> |t| > maxChars && Contains(r, marker)
  {
    var t := Strip(text);
    if |t| > maxChars {
      var r := LimitWith(marker, text, maxChars, head);
      assert r[head..head + |marker|] == marker;
      assert OccursAt(r, marker, head);
    }
  }

  /** A text within the limit is passed through unchanged when already
      stripped, so limiting twice is limiting once for such texts. */
  lemma {:induction false} LimitShortIdempotent(marker: string, text: string, maxChars: nat, head: nat)
    requires head <= maxChars && |Strip(text)| <= maxChars
    ensures LimitWith(marker, LimitWith(marker, text, maxChars, head), maxChars, head)
         == LimitWith(marker, text, maxChars, head)
  {
    StripIdempotent(text);
  }

  // ------------------------------------------------------------- prompts

  /** The texts that differ between the copies' prompts: the instructions of
      the classification prompt and of the fix-it prompt, each up to its
      format line and each held as its first character and the rest, and the
      label before the fix-it prompt's payload. */
  datatype Template = Template(
    promptFirst: char, promptRest: string,
    fixFirst: char, fixRest: string,
    fixLabel: string)
  {
    function PromptIntro(): string { [promptFirst] + promptRest }
    function FixIntro(): string { [fixFirst] + fixRest }
  }

  /** Both instruction texts open with a visible character, so `strip()`
      leaves them alone. */
  predicate ValidTemplate(t: Template) {
    !IsSpace(t.promptFirst) && !IsSpace(t.fixFirst)
  }

  /** The classification prompt of the reference copy after its first letter, up to its format line. */
  const ReferencePromptRest: string :=
    "oc\U{00ea} \U{00e9} um assistente de classifica\U{00e7}\U{00e3}o de e-mails para uma empresa do setor financeiro.\n"
    + "\n"
    + "Tarefa:\n"
    + "1) Classificar o e-mail como \"Produtivo\" ou \"Improdutivo\"\n"
    + "2) Sugerir uma resposta curta, profissional e adequada\n"
    + "\n"
    + "DEFINI\U{00c7}\U{00d5}ES IMPORTANTES:\n"
    + "- Produtivo:\n"
    + "  - E-mails de TRABALHO que exigem a\U{00e7}\U{00e3}o ou resposta objetiva\n"
    + "  - Solicita\U{00e7}\U{00f5}es, d\U{00fa}vidas, pedidos de status, suporte, envio/valida\U{00e7}\U{00e3}o de documentos, processos internos, assuntos da empresa\n"
    + "\n"
    + "- Improdutivo:\n"
    + "  - Spam, propaganda, marketing, an\U{00fa}ncios, newsletter\n"
    + "  - Mensagens sociais/cortesia sem a\U{00e7}\U{00e3}o imediata (felicita\U{00e7}\U{00f5}es, agradecimentos)\n"
    + "  - Cumprimentos gen\U{00e9}ricos ou vazios como: \"oi\", \"ol\U{00e1}\", \"bom dia\", \"ok\"\n"
    + "\n"
    + "EXEMPLOS:\n"
    + "E-mail: \"Oi\"\n"
    + "Categoria: Improdutivo\n"
    + "Resposta: \"Ol\U{00e1}! Se precisar de algo relacionado ao trabalho, fico \U{00e0} disposi\U{00e7}\U{00e3}o.\"\n"
    + "\n"
    + "E-mail: \"Promo\U{00e7}\U{00e3}o imperd\U{00ed}vel! Clique aqui: http://...\"\n"
    + "Categoria: Improdutivo\n"
    + "Resposta: \"Obrigado pela mensagem.\"\n"
    + "\n"
    + "E-mail: \"Obrigado pela ajuda!\"\n"
    + "Categoria: Improdutivo\n"
    + "Resposta: \"Por nada! Se precisar de algo mais, fico \U{00e0} disposi\U{00e7}\U{00e3}o.\"\n"
    + "\n"
    + "E-mail: \"Preciso do status do meu chamado 12345\"\n"
    + "Categoria: Produtivo\n"
    + "Resposta: \"Vou verificar o status do chamado 12345 e retorno em breve.\"\n"
    + "\n"
    + "E-mail: \"Pode me enviar o relat\U{00f3}rio de vendas?\"\n"
    + "Categoria: Produtivo\n"
    + "Resposta: \"Claro! Vou providenciar o relat\U{00f3}rio e envio assim que poss\U{00ed}vel.\"\n"
    + "\n"
    + "REGRAS DA RESPOSTA:\n"
    + "- 1 a 2 frases\n"
    + "- Tom profissional e amig\U{00e1}vel\n"
    + "- N\U{00e3}o invente dados (se faltar informa\U{00e7}\U{00e3}o, pe\U{00e7}a de forma objetiva)\n"
    + "- Retorne APENAS um JSON v\U{00e1}lido (sem texto antes ou depois, sem markdown)\n"
    + "- N\U{00e3}o use blocos de c\U{00f3}digo (n\U{00e3}o use ```)\n"
    + "\n"
    + "FORMATO DE SA\U{00cd}DA:\n"

  /** The fix-it prompt of the reference copy after its first letter, up to its format line. */
  const ReferenceFixRest: string :=
    "eescreva o conte\U{00fa}do abaixo como APENAS um JSON v\U{00e1}lido (sem texto antes ou depois).\n"
    + "N\U{00e3}o use markdown, n\U{00e3}o use ```.\n"
    + "\n"
    + "O JSON deve conter exatamente:\n"

  /** The classification prompt of the double-encoded copy after its first letter, up to its format line. */
  const PortuguesePromptRest: string :=
    "oc\U{00c3}\U{00aa} \U{00c3}\U{00a9} um assistente de classifica\U{00c3}\U{00a7}\U{00c3}\U{00a3}o de e-mails para uma empresa do setor financeiro.\n"
    + "\n"
    + "Tarefa:\n"
    + "1) Classificar o e-mail como \"Produtivo\" ou \"Improdutivo\"\n"
    + "2) Sugerir uma resposta curta, profissional e adequada\n"
    + "\n"
    + "DEFINI\U{00c3}\U{2021}\U{00c3}\U{2022}ES IMPORTANTES:\n"
    + "- Produtivo:\n"
    + "  - E-mails de TRABALHO que exigem a\U{00c3}\U{00a7}\U{00c3}\U{00a3}o ou resposta objetiva\n"
    + "  - Solicita\U{00c3}\U{00a7}\U{00c3}\U{00b5}es, d\U{00c3}\U{00ba}vidas, pedidos de status, suporte, envio/valida\U{00c3}\U{00a7}\U{00c3}\U{00a3}o de documentos, processos internos, assuntos da empresa\n"
    + "\n"
    + "- Improdutivo:\n"
    + "  - Spam, propaganda, marketing, an\U{00c3}\U{00ba}ncios, newsletter\n"
    + "  - Mensagens sociais/cortesia sem a\U{00c3}\U{00a7}\U{00c3}\U{00a3}o imediata (felicita\U{00c3}\U{00a7}\U{00c3}\U{00b5}es, agradecimentos)\n"
    + "  - Cumprimentos gen\U{00c3}\U{00a9}ricos ou vazios como: \"oi\", \"ol\U{00c3}\U{00a1}\", \"bom dia\", \"ok\"\n"
    + "\n"
    + "EXEMPLOS:\n"
    + "E-mail: \"Oi\"\n"
    + "Categoria: Improdutivo\n"
    + "Resposta: \"Ol\U{00c3}\U{00a1}! Se precisar de algo relacionado ao trabalho, fico \U{00c3}\U{00a0} disposi\U{00c3}\U{00a7}\U{00c3}\U{00a3}o.\"\n"
    + "\n"
    + "E-mail: \"Promo\U{00c3}\U{00a7}\U{00c3}\U{00a3}o imperd\U{00c3}\U{00ad}vel! Clique aqui: http://...\"\n"
    + "Categoria: Improdutivo\n"
    + "Resposta: \"Obrigado pela mensagem.\"\n"
    + "\n"
    + "E-mail: \"Obrigado pela ajuda!\"\n"
    + "Categoria: Improdutivo\n"
    + "Resposta: \"Por nada! Se precisar de algo mais, fico \U{00c3}\U{00a0} disposi\U{00c3}\U{00a7}\U{00c3}\U{00a3}o.\"\n"
    + "\n"
    + "E-mail: \"Preciso do status do meu chamado 12345\"\n"
    + "Categoria: Produtivo\n"
    + "Resposta: \"Vou verificar o status do chamado 12345 e retorno em breve.\"\n"
    + "\n"
    + "E-mail: \"Pode me enviar o relat\U{00c3}\U{00b3}rio de vendas?\"\n"
    + "Categoria: Produtivo\n"
    + "Resposta: \"Claro! Vou providenciar o relat\U{00c3}\U{00b3}rio e envio assim que poss\U{00c3}\U{00ad}vel.\"\n"
    + "\n"
    + "REGRAS DA RESPOSTA:\n"
    + "- 1 a 2 frases\n"
    + "- Tom profissional e amig\U{00c3}\U{00a1}vel\n"
    + "- N\U{00c3}\U{00a3}o invente dados (se faltar informa\U{00c3}\U{00a7}\U{00c3}\U{00a3}o, pe\U{00c3}\U{00a7}a de forma objetiva)\n"
    + "- Retorne APENAS um JSON v\U{00c3}\U{00a1}lido (sem texto antes ou depois, sem markdown)\n"
    + "- N\U{00c3}\U{00a3}o use blocos de c\U{00c3}\U{00b3}digo (n\U{00c3}\U{00a3}o use ```)\n"
    + "\n"
    + "FORMATO DE SA\U{00c3}DA:\n"

  /** The fix-it prompt of the double-encoded copy after its first letter, up to its format line. */
  const PortugueseFixRest: string :=
    "eescreva o conte\U{00c3}\U{00ba}do abaixo como APENAS um JSON v\U{00c3}\U{00a1}lido (sem texto antes ou depois).\n"
    + "N\U{00c3}\U{00a3}o use markdown, n\U{00c3}\U{00a3}o use ```.\n"
    + "\n"
    + "O JSON deve conter exatamente:\n"

  /** The prompts of app/services/ai_client.py and app/services/prompt/prompt.py. */
  const ReferenceTemplate: Template := Template('V', ReferencePromptRest, 'R', ReferenceFixRest, "Conte\U{00fa}do:")

  /** The prompts of app/services/cliente_ia.py. */
  const PortugueseTemplate: Template := Template('V', PortuguesePromptRest, 'R', PortugueseFixRest, "Conte\U{00c3}\U{00ba}do:")

  lemma {:induction false} ReferenceTemplateValid()
    ensures ValidTemplate(ReferenceTemplate)
  {
  }

  lemma {:induction false} PortugueseTemplateValid()
    ensures ValidTemplate(PortugueseTemplate)
  {
  }


  /** The output format the prompts ask for. */
  const FormatLine: string :=
    "{\"categoria\":\"Produtivo|Improdutivo\",\"resposta\":\"...\",\"justificativa_curta\":\"...\"}"

  const Quotes: string := "\"\"\""

  /** The classification prompt up to the opening quotes of the e-mail. */
  function PromptBefore(t: Template): string {
    t.PromptIntro() + FormatLine + "\n\nE-mail para classificar:\n" + Quotes
  }

  const PromptAfter: string := Quotes + "\n\nRetorne APENAS o JSON."

  /** The fix-it prompt up to the opening quotes of the bad answer. */
  function FixBefore(t: Template): string {
    t.FixIntro() + FormatLine + "\n\n" + t.fixLabel + "\n" + Quotes
  }

  const FixAfter: string := Quotes + "\n\nRetorne SOMENTE o JSON."

  /** The classification prompt: the f-string, which opens and closes with a
      newline, then `.strip()`. */
  function BuildPrompt(t: Template, emailText: string): string {
    Strip("\n" + (PromptBefore(t) + emailText + PromptAfter) + "\n")
  }

  /** The fix-it prompt around the model's unreadable answer. */
  function BuildFixPrompt(t: Template, badOutput: string): string {
    Strip("\n" + (FixBefore(t) + badOutput + FixAfter) + "\n")
  }

  /** `strip()` removes exactly the newline on each side of a text whose ends
      are visible. */
  lemma {:induction false} StripNewlines(m: string)
    requires m != [] && IsStripped(m)
    ensures Strip("\n" + m + "\n") == m
  {
    var s := "\n" + m + "\n";
    assert s[1..] == m + "\n";
    assert LeadCount(m + "\n") == 0;
    assert LeadCount(s) == 1;
    assert s[..|s| - 1] == "\n" + m;
    assert TrailCount("\n" + m) == 0;
    assert TrailCount(s) == 1;
    assert s[1..|s| - 1] == m;
  }

  /** A text framed by a visible start and a visible end is its own strip. */
  lemma {:induction false} FramedStripped(before: string, x: string, after: string)
    requires before != [] && !IsSpace(before[0]) && after != [] && !IsSpace(after[|after| - 1])
    ensures Strip("\n" + (before + x + after) + "\n") == before + x + after
  {
    var m := before + x + after;
    assert m[0] == before[0] && m[|m| - 1] == after[|after| - 1];
    StripNewlines(m);
  }

  /** The classification prompt is the instructions, the format line and the
      e-mail between triple quotes, verbatim, with nothing before or after. */
  lemma {:induction false} PromptShape(t: Template, emailText: string)
    requires ValidTemplate(t)
    ensures BuildPrompt(t, emailText) == PromptBefore(t) + emailText + PromptAfter
  {
    assert PromptBefore(t)[0] == t.promptFirst;
    FramedStripped(PromptBefore(t), emailText, PromptAfter);
  }

  /** The fix-it prompt is its instructions, the format line, the label and
      the bad answer between triple quotes, verbatim. */
  lemma {:induction false} FixPromptShape(t: Template, badOutput: string)
    requires ValidTemplate(t)
    ensures BuildFixPrompt(t, badOutput) == FixBefore(t) + badOutput + FixAfter
  {
    assert FixBefore(t)[0] == t.fixFirst;
    FramedStripped(FixBefore(t), badOutput, FixAfter);
  }

  /** The middle of a frame is recoverable from the framed text. */
  lemma {:induction false} FrameInjective(before: string, x1: string, x2: string, after: string)
    ensures before + x1 + after == before + x2 + after <==> x1 == x2
  {
    if before + x1 + after == before + x2 + after {
      assert |x1| == |x2|;
      assert x1 == (before + x1 + after)[|before|..|before| + |x1|];
      assert x2 == (before + x2 + after)[|before|..|before| + |x2|];
    }
  }

  /** Different e-mails give different prompts, and different bad answers
      different fix-it prompts. */
  lemma {:induction false} PromptInjective(t: Template, e1: string, e2: string)
    requires ValidTemplate(t)
    ensures BuildPrompt(t, e1) == BuildPrompt(t, e2) <==> e1 == e2
    ensures BuildFixPrompt(t, e1) == BuildFixPrompt(t, e2) <==> e1 == e2
  {
    PromptShape(t, e1);
    PromptShape(t, e2);
    FixPromptShape(t, e1);
    FixPromptShape(t, e2);
    FrameInjective(PromptBefore(t), e1, e2, PromptAfter);
    FrameInjective(FixBefore(t), e1, e2, FixAfter);
  }
}
