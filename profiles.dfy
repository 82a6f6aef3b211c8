/** The constants that distinguish the copies of the triage pipeline.

    The repository carries the pipeline twice -- app/services/ai_client.py and
    app/services/cliente_ia.py -- and a third time in pieces (app/utils/Respostas.py,
    app/utils/preprocessamento_texto.py, app/services/prompt/prompt.py). The
    copies differ only in their literals: stopwords, the accented letters the
    normaliser keeps, keyword lists, the trivial-greeting patterns and the
    reply texts. A `Profile` holds those literals (the prompt texts are a
    `Prompts.Template`); the rest of the model is written once over a
    profile. */
module Profiles {
  import opened Chars

  /** A character a trivial-greeting pattern spells out: never whitespace and
      never the `!` the pattern allows after its last word. */
  type PatternChar = c: char | !IsSpace(c) && c != '!' witness 'a'

  /** A word of a trivial-greeting pattern, one string per position listing the
      characters accepted there (one letter, or the members of a class such as
      `[áa]`); a word spells at least one position. */
  type Word = w: seq<seq<PatternChar>> | w != [] witness [['a']]

  /** A pattern of the shape `^\s*w1(\s+w2)?\s*!?\s*$`, given by its one or two
      words. */
  datatype TrivialPattern = TrivialPattern(words: seq<Word>)

  /** The patterns have one or two words. */
  type Pattern = p: TrivialPattern | 1 <= |p.words| <= 2 witness TrivialPattern([[['a']]])

  datatype Profile = Profile(
    stopwords: set<string>,         // STOPWORDS_PT_BR
    keep: set<char>,                // the accented letters of the normaliser's class
    congratsKeywords: seq<string>,  // the last two social keywords
    trivialPatterns: seq<Pattern>,
    spamKeywords: seq<string>,      // SPAM_STRONG_KEYWORDS
    christmasReply: string,
    newYearReply: string,
    congratsReply: string,
    genericSocialReply: string,
    socialJustification: string,
    spamJustification: string,
    trivialReply: string,
    trivialJustification: string,
    noReplyReply: string,
    noReplyJustification: string,
    quotaReply: string,
    quotaJustification: string,
    helpReply: string,              // "Como posso ajudar você?"
    defaultJustification: string,   // the sanitiser's default justification
    emptyJustification: string,
    notConfiguredJustification: string,
    guardRailJustification: string,
    truncationMarker: string
  )

  const ChristmasKeywords: seq<string> := ["feliz natal", "boas festas"]
  const NewYearKeywords: seq<string> := ["feliz ano novo"]

  /** SOCIAL_KEYWORDS, in source order. */
  function SocialKeywords(p: Profile): (r: seq<string>)
    ensures |r| == 3 + |p.congratsKeywords|
  {
    ChristmasKeywords + NewYearKeywords + p.congratsKeywords
  }

  /** TRIVIAL_PATTERNS of app/services/ai_client.py. */
  const ReferencePatterns: seq<Pattern> := [
    TrivialPattern([["o", "i"]]),
    TrivialPattern([["o", "l", "\U{00e1}a"]]),
    TrivialPattern([["b", "o", "m"], ["d", "i", "a"]]),
    TrivialPattern([["b", "o", "a"], ["t", "a", "r", "d", "e"]]),
    TrivialPattern([["b", "o", "a"], ["n", "o", "i", "t", "e"]]),
    TrivialPattern([["o", "k"]]),
    TrivialPattern([["b", "l", "z"]]),
    TrivialPattern([["t", "\U{00e1}a"]]),
    TrivialPattern([["v", "a", "l", "e", "u"]])]

  /** PADROES_MENSAGENS_TRIVIAIS of app/services/cliente_ia.py: the class `[áa]`
      became the three characters of its double encoding. */
  const PortuguesePatterns: seq<Pattern> := [
    TrivialPattern([["o", "i"]]),
    TrivialPattern([["o", "l", "\U{00c3}\U{00a1}a"]]),
    TrivialPattern([["b", "o", "m"], ["d", "i", "a"]]),
    TrivialPattern([["b", "o", "a"], ["t", "a", "r", "d", "e"]]),
    TrivialPattern([["b", "o", "a"], ["n", "o", "i", "t", "e"]]),
    TrivialPattern([["o", "k"]]),
    TrivialPattern([["b", "l", "z"]]),
    TrivialPattern([["t", "\U{00c3}\U{00a1}a"]]),
    TrivialPattern([["v", "a", "l", "e", "u"]])]

  /** The constants of app/services/ai_client.py, with the clean UTF-8 literals. */
  const Reference: Profile := Profile(
    stopwords := {"a", "as", "com", "da", "das", "de", "do", "dos", "e", "em", "entre", "essa", "esse", "esta", "este", "eu", "isso", "mas", "me", "meu", "minha", "na", "nas", "no", "nos", "n\U{00f3}s", "o", "os", "ou", "para", "por", "que", "se", "sem", "sobre", "um", "uma", "umas", "uns", "vc", "voc\U{00ea}", "voc\U{00ea}s"},
    keep := {'\U{00e1}', '\U{00e0}', '\U{00e2}', '\U{00e3}', '\U{00e9}', '\U{00e8}', '\U{00ea}', '\U{00ed}', '\U{00ec}', '\U{00ee}', '\U{00f3}', '\U{00f2}', '\U{00f4}', '\U{00f5}', '\U{00fa}', '\U{00f9}', '\U{00fb}', '\U{00e7}'},
    congratsKeywords := ["parab\U{00e9}ns", "parabens"],
    trivialPatterns := ReferencePatterns,
    spamKeywords := [
      "promo\U{00e7}\U{00e3}o",
      "promocao",
      "oferta",
      "desconto",
      "imperd\U{00ed}vel",
      "imperdivel",
      "compre",
      "comprar",
      "cupom",
      "frete gr\U{00e1}tis",
      "frete gratis",
      "clique aqui",
      "ganhe",
      "aproveite",
      "newsletter",
      "assinatura",
      "unsubscribe",
      "descadastrar",
      "descadastre",
      "remover inscri\U{00e7}\U{00e3}o",
      "remover inscricao",
      "marketing",
      "publicidade",
      "propaganda",
      "an\U{00fa}ncio",
      "anuncio",
      "black friday",
      "liquida\U{00e7}\U{00e3}o",
      "liquidacao"],
    christmasReply := "Obrigado pela mensagem! Feliz Natal pra voc\U{00ea} tamb\U{00e9}m! \U{1f384}\U{2728}",
    newYearReply := "Obrigado pela mensagem! Feliz Ano Novo pra voc\U{00ea} tamb\U{00e9}m! \U{1f386}\U{2728}",
    congratsReply := "Muito obrigado! \U{1f60a}",
    genericSocialReply := "Obrigado pela mensagem! \U{1f60a}",
    socialJustification := "Mensagem social sem necessidade de a\U{00e7}\U{00e3}o.",
    spamJustification := "Conte\U{00fa}do com caracter\U{00ed}sticas de spam/propaganda, sem necessidade de a\U{00e7}\U{00e3}o.",
    trivialReply := "Ol\U{00e1}! Se precisar de algo relacionado ao trabalho, fico \U{00e0} disposi\U{00e7}\U{00e3}o.",
    trivialJustification := "Mensagem muito curta e sem contexto de trabalho.",
    noReplyReply := "Mensagem recebida. Este \U{00e9} um e-mail autom\U{00e1}tico que n\U{00e3}o requer resposta.",
    noReplyJustification := "E-mail autom\U{00e1}tico identificado como \'no-reply\', sem necessidade de resposta.",
    quotaReply := "No momento, o sistema est\U{00e1} com alto volume de processamento. Pode me dar mais detalhes sobre o que voc\U{00ea} precisa? (ex: status de um caso, envio de documento, d\U{00fa}vida espec\U{00ed}fica)",
    quotaJustification := "Sistema temporariamente indispon\U{00ed}vel (alto volume).",
    helpReply := "Como posso ajudar voc\U{00ea}?",
    defaultJustification := "Classifica\U{00e7}\U{00e3}o" + " realizada com base no conte\U{00fa}do do e-mail.",
    emptyJustification := "Conte\U{00fa}do vazio.",
    notConfiguredJustification := "Sistema de IA n\U{00e3}o configurado.",
    guardRailJustification := "Conte\U{00fa}do sem necessidade de a\U{00e7}\U{00e3}o (social/trivial/spam).",
    truncationMarker := "\n\n[...trecho do e-mail truncado para an\U{00e1}lise...]\n\n"
  )

  /** The congratulation entries of PALAVRAS_CHAVE_SOCIAIS in app/services/cliente_ia.py. */
  const PortugueseCongratsKeywords: seq<string> := ["parab\U{00c3}\U{00a9}ns", "parabens"]

  /** PALAVRAS_CHAVE_SPAM_FORTE of app/services/cliente_ia.py. */
  const PortugueseSpamKeywords: seq<string> := [
    "promo\U{00c3}\U{00a7}\U{00c3}\U{00a3}o",
    "promocao",
    "oferta",
    "desconto",
    "imperd\U{00c3}\U{00ad}vel",
    "imperdivel",
    "compre",
    "comprar",
    "cupom",
    "frete gr\U{00c3}\U{00a1}tis",
    "frete gratis",
    "clique aqui",
    "ganhe",
    "aproveite",
    "newsletter",
    "assinatura",
    "unsubscribe",
    "descadastrar",
    "descadastre",
    "remover inscri\U{00c3}\U{00a7}\U{00c3}\U{00a3}o",
    "remover inscricao",
    "marketing",
    "publicidade",
    "propaganda",
    "an\U{00c3}\U{00ba}ncio",
    "anuncio",
    "black friday",
    "liquida\U{00c3}\U{00a7}\U{00c3}\U{00a3}o",
    "liquidacao"]

  /** The constants of app/services/cliente_ia.py: the same pipeline whose accented literals
      were saved with a double encoding, transcribed here code point by code point. */
  const Portuguese: Profile := Profile(
    stopwords := {"a", "as", "com", "da", "das", "de", "do", "dos", "e", "em", "entre", "essa", "esse", "esta", "este", "eu", "isso", "mas", "me", "meu", "minha", "na", "nas", "no", "nos", "n\U{00c3}\U{00b3}s", "o", "os", "ou", "para", "por", "que", "se", "sem", "sobre", "um", "uma", "umas", "uns", "vc", "voc\U{00c3}\U{00aa}", "voc\U{00c3}\U{00aa}s"},
    keep := {'\U{00c3}', '\U{00a1}', '\U{00c3}', '\U{00a0}', '\U{00c3}', '\U{00a2}', '\U{00c3}', '\U{00a3}', '\U{00c3}', '\U{00a9}', '\U{00c3}', '\U{00a8}', '\U{00c3}', '\U{00aa}', '\U{00c3}', '\U{00ad}', '\U{00c3}', '\U{00ac}', '\U{00c3}', '\U{00ae}', '\U{00c3}', '\U{00b3}', '\U{00c3}', '\U{00b2}', '\U{00c3}', '\U{00b4}', '\U{00c3}', '\U{00b5}', '\U{00c3}', '\U{00ba}', '\U{00c3}', '\U{00b9}', '\U{00c3}', '\U{00bb}', '\U{00c3}', '\U{00a7}'},
    congratsKeywords := PortugueseCongratsKeywords,
    trivialPatterns := PortuguesePatterns,
    spamKeywords := PortugueseSpamKeywords,
    christmasReply := "Obrigado pela mensagem! Feliz Natal pra voc\U{00c3}\U{00aa} tamb\U{00c3}\U{00a9}m! \U{00f0}\U{0178}\U{017d}\U{201e}\U{00e2}\U{0153}\U{00a8}",
    newYearReply := "Obrigado pela mensagem! Feliz Ano Novo pra voc\U{00c3}\U{00aa} tamb\U{00c3}\U{00a9}m! \U{00f0}\U{0178}\U{017d}\U{2020}\U{00e2}\U{0153}\U{00a8}",
    congratsReply := "Muito obrigado! \U{00f0}\U{0178}\U{02dc}\U{0160}",
    genericSocialReply := "Obrigado pela mensagem! \U{00f0}\U{0178}\U{02dc}\U{0160}",
    socialJustification := "Mensagem social sem necessidade de a\U{00c3}\U{00a7}\U{00c3}\U{00a3}o.",
    spamJustification := "Conte\U{00c3}\U{00ba}do com caracter\U{00c3}\U{00ad}sticas de spam/propaganda, sem necessidade de a\U{00c3}\U{00a7}\U{00c3}\U{00a3}o.",
    trivialReply := "Ol\U{00c3}\U{00a1}! Se precisar de algo relacionado ao trabalho, fico \U{00c3}\U{00a0} disposi\U{00c3}\U{00a7}\U{00c3}\U{00a3}o.",
    trivialJustification := "Mensagem muito curta e sem contexto de trabalho.",
    noReplyReply := "Mensagem recebida. Este \U{00c3}\U{00a9} um e-mail autom\U{00c3}\U{00a1}tico que n\U{00c3}\U{00a3}o requer resposta.",
    noReplyJustification := "E-mail autom\U{00c3}\U{00a1}tico identificado como \'no-reply\', sem necessidade de resposta.",
    quotaReply := "No momento, o sistema est\U{00c3}\U{00a1} com alto volume de processamento. Pode tentar novamente mais tarde! ",
    quotaJustification := "Sistema temporariamente indispon\U{00c3}\U{00ad}vel (alto volume).",
    helpReply := "Como posso ajudar voc\U{00c3}\U{00aa}?",
    defaultJustification := "Classifica\U{00c3}\U{00a7}\U{00c3}\U{00a3}o" + " realizada com base no conte\U{00c3}\U{00ba}do do e-mail.",
    emptyJustification := "Conte\U{00c3}\U{00ba}do vazio.",
    notConfiguredJustification := "Sistema de IA n\U{00c3}\U{00a3}o configurado.",
    guardRailJustification := "Conte\U{00c3}\U{00ba}do sem necessidade de a\U{00c3}\U{00a7}\U{00c3}\U{00a3}o (social/trivial/spam).",
    truncationMarker := "\n\n[...trecho do e-mail truncado para an\U{00c3}\U{00a1}lise...]\n\n"
  )

  /** app/utils/Respostas.py with app/utils/preprocessamento_texto.py and
      app/services/prompt/prompt.py: the reference literals, except for the
      quota reply, which asks the user to try again later. */
  const Utils: Profile := Reference.(quotaReply := "No momento, o sistema est\U{00e1} com alto volume de processamento. Pode tentar novamente mais tarde! ")

  /** What the proofs need of a profile: every reply text is non-empty, the
      sanitiser's defaults are already stripped. (What the proofs need of the
      trivial patterns is carried by the type `Pattern`.) */
  predicate ValidProfile(p: Profile) {
    ValidTexts(p) && ValidDefaults(p)
  }

  predicate ValidTexts(p: Profile) {
    && p.christmasReply != [] && p.newYearReply != [] && p.congratsReply != []
    && p.genericSocialReply != [] && p.socialJustification != []
    && p.spamJustification != [] && p.trivialReply != [] && p.trivialJustification != []
    && p.noReplyReply != [] && p.noReplyJustification != []
    && p.quotaReply != [] && p.quotaJustification != []
    && p.emptyJustification != [] && p.notConfiguredJustification != []
    && p.guardRailJustification != []
  }

  predicate ValidDefaults(p: Profile) {
    && p.helpReply != [] && IsStripped(p.helpReply)
    && p.defaultJustification != [] && IsStripped(p.defaultJustification)
  }

  lemma {:induction false} ReferenceTexts()
    ensures ValidTexts(Reference) && ValidTexts(Utils)
  {
  }

  lemma {:induction false} ReferenceDefaults()
    ensures ValidDefaults(Reference)
  {
  }

  lemma {:induction false} PortugueseTexts()
    ensures ValidTexts(Portuguese)
  {
  }

  lemma {:induction false} PortugueseDefaults()
    ensures ValidDefaults(Portuguese)
  {
  }

  /** The reference copy and the split-out utilities satisfy what the proofs
      need. */
  lemma {:induction false} ReferenceValid()
    ensures ValidProfile(Reference) && ValidProfile(Utils)
  {
    ReferenceTexts();
    ReferenceDefaults();
  }

  /** The double-encoded copy satisfies what the proofs need. */
  lemma {:induction false} PortugueseValid()
    ensures ValidProfile(Portuguese)
  {
    PortugueseTexts();
    PortugueseDefaults();
  }
}
