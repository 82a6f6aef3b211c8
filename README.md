# E-mail triage core, modelled in Dafny

EmailAI is a small web service. It reads an e-mail, either typed into a form
or uploaded as a `.txt` or `.pdf` file. It classifies the e-mail as
*Produtivo* (needs an action) or *Improdutivo* (no action needed). It answers
with a record of three strings: `categoria`, `resposta` (a suggested reply)
and `justificativa_curta` (a short justification).

This project models the core of that service and proves properties of it:

- **The triage pipeline** (`classify_and_reply` in
  `app/services/ai_client.py`, and its Portuguese-named copy
  `classificar_email_e_sugerir_resposta` in `app/services/cliente_ia.py`):
  - the deterministic rules that settle an e-mail without the model (empty
    input, social greeting, trivial message, strong spam, automatic
    "no-reply" sender);
  - the API-key gate;
  - the call to the language model, with the input cut to size;
  - the ladder that recovers a JSON object from the model's answer: strict
    parse, loose repair, one "fix this JSON" call, then give up;
  - the sanitiser, the guard rail and the exception handler with its quota
    case.
- **The text normaliser** (`preprocess_text` / `preprocessar_texto`, also in
  `app/utils/preprocessamento_texto.py`) behind the social and trivial rules.
- **The prompts** sent to the model (`build_prompt`, `build_fix_json_prompt`,
  and `app/services/prompt/prompt.py`).
- **The split-out rule helpers** of `app/utils/Respostas.py`.
- **The upload path** (`app/services/file_reader.py` and its copy
  `app/services/leitor_arquivo.py`): the extension check, the dispatch on the
  extension, the line clean-up and the "probably scanned" test.
- **The typed-text normalisation** of `app/utils/text_utils.py` and
  `app/utils/util_texto.py`.

The copies of the pipeline differ only in their literals. The model is written
once, over a `Profiles.Profile` that holds those literals:

- `Profiles.Reference` holds the literals of `ai_client.py`.
- `Profiles.Portuguese` holds the literals of `cliente_ia.py`. That file was
  saved with its accented letters encoded twice ("parabéns" reads
  "parabÃ©ns"), and the model transcribes those literals code point by code
  point.
- `Profiles.Utils` holds the literals of `Respostas.py` and its neighbours.

The language model is an oracle: a total function from the request sent
(prompt and temperature) to the outcome of the call, either the answer's text
or an exception with its message and type name. `json.loads` is modelled for
documents that are one flat object of string values (`Json.Loads`).

The strict stage's fallback to the span from the first '{' to the last '}'
(`app/services/ai_client.py:270-273`) can never run: when the non-greedy
search finds nothing, no '{' comes before a '}'
(`Recovery.ExtractFallbackDead`). The model keeps the fallback as written.

## Model

| member | source | states |
|---|---|---|
| Pipeline.Triage | app/services/ai_client.py:363-527 | every path of the entry point returns a well-formed record: a known category and two non-empty texts |
| Pipeline.ClassifyAndReply | app/services/ai_client.py:363-527 | the step-by-step entry point returns the record `Triage` defines and sends exactly the requests `Requests` lists |
| Pipeline.AskModel | app/services/ai_client.py:420-527 | the body of the `try` and its handler: the first call, the ladder, the guard rail, and the exception handler for either call |
| Pipeline.ReadLadder | app/services/ai_client.py:436-497 | the recovery ladder sends the fix-it request exactly when the first answer cannot be read, and returns `Reread`'s record |
| Pipeline.ApplyGuardRail | app/services/ai_client.py:488-497 | the guard rail as run, with the spam counting loop, returns `GuardRail`'s record |
| Pipeline.Settled | app/services/ai_client.py:367-385 | whenever a rule settles the e-mail, its record is well formed |
| Pipeline.ReadAnswer | app/services/ai_client.py:436-443 | a record read by the strict parse or the loose repair, then sanitised, is well formed |
| Pipeline.Failure | app/services/ai_client.py:499-527 | the handler's record is well formed and always says Produtivo |
| Pipeline.GuardRail | app/services/ai_client.py:488-497 | a Produtivo result for an input that is spam, trivial or social becomes the rail's record; any other result, including a Produtivo one when no rule holds, passes unchanged; a Produtivo result therefore means no rule holds; well-formedness is kept |
| Pipeline.Consult | app/services/ai_client.py:420-527 | the first call and what follows it always give a well-formed record |
| Pipeline.Reread | app/services/ai_client.py:436-497 | the ladder always gives a well-formed record |
| Pipeline.RulesFirst | app/services/ai_client.py:365-385 | a rule that fires decides the record, before the key is read and before any call; the rules are tried in the order empty, social, trivial, spam, no-reply |
| Pipeline.KeyGate | app/services/ai_client.py:388-396 | without a key the record is the "not configured" one and nothing is sent; with a key the model is consulted on the stripped input |
| Pipeline.CallsMade | app/services/ai_client.py:401-459 | one or two requests: the prompt on the limited input at the default temperature, then the fix-it prompt at temperature 0 exactly when the first answer cannot be read |
| Pipeline.FailureBoundary | app/services/ai_client.py:499-527 | an exception from the first call or from the fix-it call gives the quota record when its message names a quota error, and otherwise the error record naming its type |
| Pipeline.GuardRailInert | app/services/ai_client.py:488-497 | once no rule fired, the guard rail never changes the record: it re-checks rules that already failed on the same input |
| Pipeline.LadderResult | app/services/ai_client.py:436-486 | the ladder's result is the first readable answer, sanitised, or the fix-failed record when the fixed answer cannot be read either |
| Pipeline.DumpedAnswerRead | app/services/ai_client.py:436-438 | an answer that is `json.dumps(..., ensure_ascii=False)` of a well-formed record with stripped texts and no '}' in them, bare or in a json code block, is read back as that record; a '}' inside a text would end the non-greedy `\{.*?\}` search early |
| Pipeline.SingleQuotedAnswerRead | app/services/ai_client.py:439-443 | an answer in Python's quotes with a trailing comma, for a well-formed record with stripped, plain texts (no quote, apostrophe, backslash, ',', ':', brace, control character or typographic quote), fails the strict parse and is read back by the loose repair as the record; an apostrophe inside a text would break `'([^']*)'` |
| Pipeline.AnswerKept | app/services/ai_client.py:420-497 | a first answer that reads as a record is what the entry point returns, after that single call |
| Pipeline.DumpedAnswerKept | app/services/ai_client.py:363-497 | end to end: no rule fires, a key is set and the model answers with `json.dumps(..., ensure_ascii=False)` of a well-formed record with stripped texts and no '}' in them; that record is returned after one call |
| Pipeline.RepairedAnswerKept | app/services/ai_client.py:363-497 | end to end: a Python-quoted first answer for a well-formed record with stripped, plain texts (as in `Pipeline.SingleQuotedAnswerRead`) is repaired into the record, again after one call |
| Rules.SocialReply | app/services/ai_client.py:77-93 | the social reply is well formed, Improdutivo, with the social justification |
| Rules.SocialReplyTo | app/services/ai_client.py:77-93 | the reply to a normalised text is well formed, Improdutivo, with the social justification; which themed text it picks is stated by `Rules.SocialReplyThemed` |
| Rules.IsSocial | app/services/ai_client.py:70-74 | no contract of its own; `Rules.SocialByNorm` states when it holds and `Rules.SocialOnNormalised` that it only looks at the normalised text |
| Rules.SocialByNorm | app/services/ai_client.py:70-74 | the social rule holds exactly when the normalised text holds a Christmas, New Year or congratulations keyword and is at most 120 characters long |
| Rules.SocialReplyThemed | app/services/ai_client.py:80-87 | a message the rule accepts always gets one of the three themed replies, never the generic one |
| Rules.SocialOnNormalised | app/services/ai_client.py:70-93 | the rule and its reply look only at the normalised text, so normalising first changes neither |
| Rules.TrivialGreeting | app/services/ai_client.py:96-104 | every layout of a greeting pattern is trivial: any case, any whitespace around and between the words, an optional '!' |
| Rules.TrivialIgnoresCase | app/services/ai_client.py:96-117 | the trivial rule ignores letter case |
| Rules.IsTrivial | app/services/ai_client.py:96-117 | no contract of its own; `Rules.TrivialGreeting` states that every greeting layout is trivial and `Rules.TrivialIgnoresCase` that case does not matter |
| Rules.NoReplyFound | app/services/ai_client.py:140-146 | a no-reply marker, in any case, standing as a word of its own, is recognised |
| Rules.NoReplyMentionsReply | app/services/ai_client.py:140-146 | whatever the no-reply rule recognises contains "reply" |
| Rules.NoReplyIgnoresCase | app/services/ai_client.py:140-146 | the no-reply rule ignores letter case |
| Rules.IsNoReply | app/services/ai_client.py:140-146 | no contract of its own; `Rules.NoReplyFound`, `Rules.NoReplyMentionsReply` and `Rules.NoReplyIgnoresCase` state what it accepts |
| Rules.QuotaMarkerFound | app/services/ai_client.py:336-345 | an error message carrying any quota marker, in any case and anywhere, is a quota error |
| Rules.QuotaIgnoresCase | app/services/ai_client.py:336-345 | the quota test ignores letter case |
| Rules.IsQuota | app/services/ai_client.py:336-345 | no contract of its own; `Rules.QuotaMarkerFound` and `Rules.QuotaIgnoresCase` state what it accepts |
| Spam.IsStrongSpam | app/services/ai_client.py:120-138 | the counting loop and the three tests decide exactly `StrongSpam` |
| Spam.Hits | app/services/ai_client.py:126-129 | the keyword count never exceeds the number of keywords |
| Spam.HitsPositive | app/services/ai_client.py:126-131 | at least one hit exactly when some keyword is in the lowered text |
| Spam.HitsTwo | app/services/ai_client.py:126-134 | at least two hits exactly when two different list positions hold keywords of the text |
| Spam.StrongSpamIff | app/services/ai_client.py:120-138 | spam exactly when there is a link and a keyword, or two different keywords, or an unsubscribe marker |
| Spam.UrlFound | app/services/ai_client.py:67 | a link prefix in any case, followed by a visible character, is found wherever it stands |
| Spam.UpperCaseKeywordNeverHits | app/services/cliente_ia.py:59-66 | a keyword with an upper-case letter can never occur in lowered text |
| Spam.StrongSpam | app/services/ai_client.py:120-138 | no contract of its own; `Spam.StrongSpamIff` states when it holds and `Spam.IsStrongSpam` computes it with the source's loop |
| Sanitizer.Sanitize | app/services/ai_client.py:305-330 | an unknown category becomes Produtivo; Improdutivo is kept exactly when the model said so; the texts are stripped; a blank text gets its default; the result is well formed |
| Sanitizer.SanitizeIdempotent | app/services/ai_client.py:305-330 | sanitising a sanitised record changes nothing |
| Sanitizer.SanitizeKeepsWellFormed | app/services/ai_client.py:305-330 | a well-formed record with stripped texts passes through the sanitiser unchanged |
| Replies.ErrorReply | app/services/ai_client.py:522-526 | the error record is Produtivo and its justification is the fixed prefix, the exception's type name and ")." |
| Replies.ErrorReplyNamesType | app/services/ai_client.py:522-526 | different exception types give different error records |
| Replies.QuotaFallback | app/services/ai_client.py:348-357 | the quota record is well formed and says Produtivo |
| Replies.FixFailedReply | app/services/ai_client.py:482-486 | the fix-failed record is well formed, Produtivo, with its fixed justification |
| Replies.EmptyInputReply | app/services/ai_client.py:367-372 | the record for an empty input is well formed, Improdutivo, with the reply "Mensagem recebida." |
| Replies.TrivialReply | app/services/ai_client.py:157-162 | the trivial record is well formed and Improdutivo |
| Replies.SpamReply | app/services/ai_client.py:149-154 | the spam record is well formed and Improdutivo, with the reply "Obrigado pela mensagem." |
| Replies.NoReplyReply | app/services/ai_client.py:164-169 | the no-reply record is well formed and Improdutivo |
| Replies.NotConfiguredReply | app/services/ai_client.py:390-395 | the record for a missing key is well formed and Produtivo, with the help reply |
| Replies.GuardRailReply | app/services/ai_client.py:490-495 | the guard rail's record is well formed and Improdutivo, with the reply "Obrigado pela mensagem." |
| Normalizer.PreprocessShape | app/services/ai_client.py:25-32 | the output is lower-case tokens of word characters or kept accents, separated by single spaces, none a stopword; its tokens are exactly the non-stopword tokens of the cleaned text, in order |
| Normalizer.PreprocessLowered | app/services/ai_client.py:25-32 | the output is lower case |
| Normalizer.PreprocessFixed | app/services/ai_client.py:25-32 | a text already in normal form is its own normalisation |
| Normalizer.PreprocessIdempotent | app/services/ai_client.py:25-32 | normalising twice is normalising once |
| Normalizer.CollapseFixed | app/services/ai_client.py:27 | a text whose only whitespace is single spaces is left alone by the whitespace collapse |
| Normalizer.ScrubChars | app/services/ai_client.py:28 | scrubbing lowered text leaves only spaces and token characters |
| Normalizer.Preprocess | app/services/ai_client.py:25-32 | no contract of its own; `Normalizer.PreprocessShape`, `Normalizer.PreprocessFixed` and `Normalizer.PreprocessIdempotent` state its result |
| Greetings.MatchesIffLayout | app/services/ai_client.py:46-56 | `re.match` of a greeting pattern accepts exactly the texts that are leading whitespace, the pattern's words separated by whitespace, then whitespace, an optional '!' and whitespace |
| Greetings.MatchesLayout | app/services/ai_client.py:46-56 | every such layout is accepted |
| Greetings.LayoutOf | app/services/ai_client.py:46-56 | every accepted text is such a layout |
| Greetings.Matches | app/services/ai_client.py:46-56 | no contract of its own; `Greetings.MatchesIffLayout` states exactly which texts it accepts |
| Prompts.LimitShape | app/services/ai_client.py:171-183 | a short text is only stripped; a long one keeps its first `head` and last `max - head` characters around the marker |
| Prompts.LimitTruncatesOnlyLong | app/services/ai_client.py:171-183 | whenever the result differs from the stripped text, the text was over the limit and the marker is in the result |
| Prompts.LimitShortIdempotent | app/services/ai_client.py:171-175 | limiting a text within the limit twice is limiting it once |
| Prompts.LimitWith | app/services/ai_client.py:171-183 | no contract of its own; `Prompts.LimitShape` states its result for short and long texts |
| Prompts.LimitText | app/services/ai_client.py:171-183 | no contract of its own; it is `Prompts.LimitWith` at 6000 characters with a head of 4200, which meets `Prompts.LimitShape`'s requirement |
| Prompts.PromptShape | app/services/ai_client.py:185-238 | the classification prompt is the instructions, the format line and the e-mail between triple quotes, verbatim, with nothing before or after |
| Prompts.FixPromptShape | app/services/ai_client.py:241-253 | the fix-it prompt is its instructions, the format line, the label and the bad answer between triple quotes, verbatim |
| Prompts.PromptInjective | app/services/ai_client.py:185-253 | different e-mails give different prompts, and different bad answers give different fix-it prompts |
| Prompts.BuildPrompt | app/services/ai_client.py:185-238 | no contract of its own; `Prompts.PromptShape` and `Prompts.PromptInjective` state its result |
| Prompts.BuildFixPrompt | app/services/ai_client.py:241-253 | no contract of its own; `Prompts.FixPromptShape` and `Prompts.PromptInjective` state its result |
| Json.LoadsDumps | app/services/ai_client.py:268 | `json.loads(json.dumps(d, ensure_ascii=False))` gives back `d` for a dictionary of strings |
| Json.LoadsMembers | app/services/ai_client.py:294 | an object written member by member, with either separator, reads back as its dictionary |
| Json.ToMapLast | app/services/ai_client.py:268 | a repeated key keeps its last value |
| Json.QuoteParses | app/services/ai_client.py:268 | a string as `json.dumps` writes it reads back as itself |
| Json.Loads | app/services/ai_client.py:268 | no contract of its own; `Json.LoadsDumps`, `Json.LoadsMembers` and `Json.ToMapLast` state what it reads |
| Recovery.ExtractFallbackDead | app/services/ai_client.py:259-275 | `_extract_json` fails with "no object" exactly when no '{' is followed by a '}'; otherwise it parses the narrow span, and the widest-span fallback never runs |
| Recovery.NarrowSpanNone | app/services/ai_client.py:266 | the non-greedy search fails exactly when no '{' is followed by a '}' |
| Recovery.ExtractDumps | app/services/ai_client.py:259-268 | the answer `json.dumps(d, ensure_ascii=False)` of a dictionary with no '}' in its keys or values, bare or in a json code block, is read back as `d` by the strict stage; a '}' inside a text would end the non-greedy `\{.*?\}` search early |
| Recovery.ExtractReadsDump | app/services/ai_client.py:266-268 | the search reads `json.dumps(..., ensure_ascii=False)` of a dictionary without '}' in its texts back as that dictionary |
| Recovery.FenceRoundTrip | app/services/ai_client.py:260-264 | the fence substitutions take a json code block apart and give its body back |
| Recovery.ExtractSingleInvalid | app/services/ai_client.py:259-268 | the strict stage rejects an object in Python's quotes |
| Recovery.ExtractJson | app/services/ai_client.py:259-275 | no contract of its own; `Recovery.ExtractDumps`, `Recovery.ExtractSingleInvalid` and `Recovery.ExtractFallbackDead` state what it reads and rejects |
| Recovery.DropCommasKeeps | app/services/ai_client.py:291 | the comma repair deletes nothing but commas and whitespace |
| Recovery.DropCommaBeforeClose | app/services/ai_client.py:291 | a comma, whitespace and a closing bracket become the bracket alone |
| Recovery.DropCommasFree | app/services/ai_client.py:291 | text without commas passes the comma repair unchanged |
| Recovery.LoosenBraced | app/services/ai_client.py:279-291 | a text from '{' to '}' without typographic quotes reaches the comma repair unchanged |
| Recovery.QuoteKeysMatch | app/services/ai_client.py:298 | after '{' or ',', whitespace, a non-empty key in single quotes without an apostrophe, whitespace and ':' become the key in double quotes and ':'; the repair goes on after the colon |
| Recovery.QuoteValuesMatch | app/services/ai_client.py:299 | ':', whitespace, a value in single quotes without an apostrophe and whitespace before ',' or '}' become `: ` and the value in double quotes; the ',' or '}' stays and the repair goes on after it |
| Recovery.KeysSingle | app/services/ai_client.py:298 | the key repair quotes the key of every single-quoted member |
| Recovery.ValuesKeyed | app/services/ai_client.py:299 | the value repair turns the keyed members into JSON members |
| Recovery.RepairSingleQuoted | app/services/ai_client.py:278-302 | the loose repair reads a non-empty dictionary with non-empty keys and plain texts (no quote, apostrophe, backslash, ',', ':', brace, control character or typographic quote), written in Python's single quotes with a trailing comma or in double quotes with one, as the dictionary itself; an apostrophe inside a text would break `'([^']*)'` |
| Recovery.RepairLoose | app/services/ai_client.py:278-302 | no contract of its own; `Recovery.LoosenBraced` and `Recovery.RepairSingleQuoted` state what it repairs |
| Upload.LastExtension | app/services/file_reader.py:9 | `rsplit(".", 1)[1]` is the text after the last '.', holds no '.', and is absent exactly when the name has no '.' |
| Upload.LastExtensionOf | app/services/file_reader.py:9 | the text after a '.' that no other '.' follows is the extension |
| Upload.AllowedFileIff | app/services/file_reader.py:5-9 | a name is accepted exactly when it is some text, a '.', and a last extension that lowercases to "txt" or "pdf" |
| Upload.AllowedFile | app/services/file_reader.py:5-9 | no contract of its own; `Upload.AllowedFileIff` states exactly which names it accepts |
| Upload.UploadRoutes | app/services/file_reader.py:109-118 | an accepted name reaches the reader of its extension; so does any name, accepted or not, whose last extension lowercased and stripped is "txt" or "pdf"; any other extension yields the empty text; a name without '.' raises |
| Upload.DispatchLooserThanCheck | app/services/file_reader.py:8-118 | the dispatch strips the extension and the check does not: "mail. txt" is refused by the check yet read as text |
| Upload.ExtractTextFromUpload | app/services/file_reader.py:109-118 | no contract of its own; `Upload.UploadRoutes` and `Upload.DispatchLooserThanCheck` state where each name goes |
| Upload.ScannedIgnoresPadding | app/services/file_reader.py:77-79 | whitespace around the extracted text never changes the "probably scanned" verdict |
| Upload.IsProbablyScanned | app/services/file_reader.py:77-79 | no contract of its own; `Upload.ScannedIgnoresPadding` states that padding never changes it |
| Upload.Normalized | app/services/file_reader.py:18-20 | after the three replacements the text holds no CR and no byte-order mark |
| Upload.CleanupText | app/services/file_reader.py:13-35 | the loop with its empty-line counter computes `Cleanup`, and the empty text gives the empty text |
| Upload.SqueezeKeeps | app/services/file_reader.py:24-33 | squeezing keeps every non-empty line, in order, and leaves no two empty lines side by side |
| Upload.SqueezeParagraphs | app/services/file_reader.py:24-33 | between two non-empty lines, a run of empty lines becomes exactly one empty line, and two neighbouring non-empty lines stay neighbours; the lines before and after are squeezed on their own |
| Upload.StripJoinTrim | app/services/file_reader.py:35 | stripping the join of stripped lines drops exactly the empty lines at both ends |
| Upload.CleanupKeepsLines | app/services/file_reader.py:13-35 | the clean-up leaves no CR and no byte-order mark, a stripped text whose every line is stripped, no two neighbouring empty lines, and the same non-empty lines in the same order |
| Upload.CleanupParagraphs | app/services/file_reader.py:13-35 | in the lines of the cleaned text, two non-empty input lines are separated by exactly one empty line when a run of empty lines stood between them, and by none when none did; what comes before and after is squeezed and loses its empty lines at the ends |
| Upload.Cleanup | app/services/file_reader.py:13-35 | no contract of its own; `Upload.CleanupKeepsLines` and `Upload.CleanupParagraphs` state its result and `Upload.CleanupText` computes it with the source's loop |
| TypedText.SquashShape | app/utils/text_utils.py:6 | squashing leaves no tab and no two neighbouring spaces |
| TypedText.SquashKeeps | app/utils/text_utils.py:6 | squashing keeps every character other than spaces and tabs, in order |
| TypedText.SquashIdempotent | app/utils/text_utils.py:6 | squashing twice is squashing once |
| TypedText.SquashRun | app/utils/text_utils.py:6 | each maximal run of spaces and tabs becomes exactly one space: the text before it and the text after it are squashed on their own, with one space between them |
| TypedText.ReplaceKeepsAllButCR | app/utils/text_utils.py:5 | apart from carriage returns, turning CRLF into LF changes nothing |
| TypedText.ReplaceNoCR | app/utils/text_utils.py:5 | a text without carriage returns is left alone |
| TypedText.CRLFAfterCR | app/utils/text_utils.py:5 | the replacement is one left-to-right pass: "\r\r\n" becomes "\r\n", so the result may still hold a CRLF |
| TypedText.NormalizeTypedShape | app/utils/text_utils.py:3-7 | `None` gives the empty text; the result is stripped, has no tab and no two neighbouring spaces, and keeps every other character of the stripped input, less the CR of each CRLF |
| TypedText.NormalizeTypedRun | app/utils/text_utils.py:3-7 | in the stripped input with CRLF turned into LF, each maximal run of spaces and tabs becomes exactly one space of the result |
| TypedText.NormalizeTyped | app/utils/text_utils.py:3-7 | no contract of its own; `TypedText.NormalizeTypedShape` and `TypedText.NormalizeTypedRun` state its result |
| Chars.Strip | app/services/ai_client.py:365 | `strip()` leaves no whitespace at either end |
| Chars.StripWindow | app/services/ai_client.py:365 | `strip()` is empty exactly when the text is all whitespace |
| Chars.StripIdempotent | app/services/ai_client.py:365 | stripping twice is stripping once |
| Chars.StripAnyPadded | app/services/ai_client.py:365 | whitespace added around a text does not change its `strip()` |
| Chars.LowerStrip | app/services/ai_client.py:97 | lower-casing commutes with `strip()` |
| Chars.Split | app/services/ai_client.py:31 | `split(sep)` gives pieces without the separator that join back into the text |
| Chars.SplitJoin | app/services/ai_client.py:31-32 | splitting undoes joining when no part holds the separator |
| Profiles.ReferenceValid | app/services/ai_client.py:149-357 | every reply text of the reference copy and of the split-out utilities is non-empty, and the sanitiser's defaults are stripped |
| Profiles.PortugueseValid | app/services/cliente_ia.py:148-352 | the same holds of the double-encoded copy |
| Findings.PortugueseCongratsKeywordDead | app/services/cliente_ia.py:39-45 | the double-encoded congratulation keyword can never occur in normalised text |
| Findings.PortugueseSpamKeywordDead | app/services/cliente_ia.py:59-66 | no double-encoded spam keyword can ever occur in lowered text |
| Findings.PortugueseMissesCongrats | app/services/cliente_ia.py:39-45 | as written, the Portuguese copy does not see "Parabéns!" as social |
| Findings.ReferenceCatchesCongrats | app/services/ai_client.py:38-44 | with the clean literals, "Parabéns!" is social and gets the congratulations reply |
| Findings.PortugueseQuotesInert | app/services/cliente_ia.py:289 | as Python reads the line, its quote step leaves every text without a comma unchanged, typographic quotes included |
| Findings.PortugueseKeepsCurlyQuotes | app/services/cliente_ia.py:289 | as written, a word in typographic double quotes keeps them; the reference step turns them into JSON quotes |
| Recovery.PlainQuotesClean | app/services/ai_client.py:290 | the quote step leaves no typographic quote and changes no other character |

## Left out

- Calls into the Gemini SDK (`genai.configure`, `GenerativeModel`, `generate_content`) are the oracle `ai`. `genai.configure`, `genai.GenerativeModel` and the three `print` calls run outside the `try` (`app/services/ai_client.py:398-415`) and are assumed not to raise; an exception from them would escape `classify_and_reply`, which `Pipeline.Triage` does not model. `max_output_tokens` and the model name are not modelled.
- Reading `GEMINI_API_KEY` from the environment: the key is a parameter.
- Logging, `print`, `uuid` request ids and the `time` measurement have no effect on the result and are left out.
- The temperature 0.2 is `Temperature.Default` and 0.0 is `Temperature.Zero`. No floating point is modelled.
- `head = int(max_chars * 0.7)` is the constant 4200 for the default 6000. `Prompts.LimitWith` takes the head size as a parameter.
- `Json.Loads` does not accept a `\u` escape of a surrogate (U+D800 to U+DFFF) that is not part of a high-low pair, although CPython keeps such a lone surrogate in the string: a Dafny `char` cannot hold one, so an answer holding such an escape is unreadable here and the model sends the fix-it request where Python would not.
- `Json.Loads` parses only one flat object whose values are strings. JSON numbers, booleans, null, arrays and nested objects parse as failures. The sanitiser's `str(...)` on non-string values is therefore not modelled.
- `Chars.Lower` and `Chars.IsWordChar` are exact on Latin-1 only. Above U+00FF, characters are left as they are by lower-casing and are not word characters.
- `Chars.IsSpace` is the exact `str.isspace` set.
- The regular expressions are modelled one by one, as functions that compute what each pattern matches. No general regex engine is modelled.
- PDF reading (`read_pdf`, `_extract_page_text`), byte decoding (`_decode_text`, `read_txt`), and `app/utils/ProcessaTxt.py` / `app/utils/ProcessaPdf.py`: the readers are parameters of `Upload.ExtractTextFromUpload`.
- The Flask routes and the browser script are not part of this model.
- `app/utils/Normaliza_texto.py`, imported by `app/utils/Respostas.py`, is not part of this model. Its `normalizar_texto` is taken to be the normaliser of `app/utils/preprocessamento_texto.py`.
- `Upload.ExtractTextFromUpload`: the `IndexError` a name without '.' raises is the result `None`.
- The quote step of the loose repair is the corrected one (`Recovery.PlainQuotes`) for every profile. For `Profiles.Portuguese` the line as written is `Findings.PortugueseQuotes`; see "## Findings".
- `Pipeline.ClassifyAndReply`: an exception raised by the sanitiser or the parser outside the ones the ladder catches cannot occur in this model, because `Json.Loads` only yields dictionaries of strings.

## Findings

| source | as written | input that shows it | evidently intended | confidence | as-written member | corrected member |
|---|---|---|---|---|---|---|
| app/services/cliente_ia.py:39-45 | the congratulation keyword is the double-encoded "parabÃ©ns", whose 'Ã' is upper case, so it never occurs in the lowered, normalised text | "Parabéns!" | "parabéns" is recognised as a social message and gets the congratulations reply | not executed | Findings.PortugueseMissesCongrats | Findings.ReferenceCatchesCongrats |
| app/services/cliente_ia.py:289 | the typographic quotes of the `replace` calls were saved as plain '"', so Python reads one `replace` of the text `, '"').replace(` by '"' and one `replace` of "'" by itself | the text “ok”, in typographic double quotes | typographic quotes become plain quotes before the JSON parse, as in app/services/ai_client.py:290 | not executed | Findings.PortugueseKeepsCurlyQuotes | Recovery.PlainQuotesClean |
| app/services/ai_client.py:488-497 | the guard rail re-checks spam, trivial and social on the same stripped input that the rules at lines 375-382 already rejected, so it can never fire: it is dead code | any e-mail; "Oi" is settled by the trivial rule at line 378 before the model is called, and an e-mail that reaches the model fails all three tests | a Produtivo answer for a spam, trivial or social e-mail is replaced by the rail's record | not executed | Pipeline.GuardRailInert | Pipeline.GuardRail |
