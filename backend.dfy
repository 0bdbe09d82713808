/**
 * The summariser's HTTP service (backend/main.py): the choice of language
 * model and the fallback summary used when none answers, the selection of the
 * transcript and instruction for `POST /summarize/`, and the cascade of email
 * providers behind `POST /send-email/`.
 *
 * Configuration comes from the environment once at start-up and is a
 * parameter here. The language models and mail services are outside the
 * model: each is a function from what it is sent to whether it answered.
 */
module Backend {
  import opened Wrappers
  import opened Text

  /** Python's truthiness of an optional string: present and not empty. */
  predicate Truthy(v: Option<string>) {
    v.Some? && v.value != ""
  }

  /** An error answer: an `HTTPException`, or an exception nobody catches. */
  datatype Failure =
    | HttpError(status: int, detail: string)
    | Uncaught  // the framework answers 500 Internal Server Error

  function StatusOf(f: Failure): int {
    match f
    case HttpError(status, _) => status
    case Uncaught => 500
  }

  // ------------------------------------------------------ fallback summariser

  const FallbackLimit: nat := 6
  const FallbackHead: string := "TL;DR:\n- "
  const FallbackTail: string := "\n\n(Note: LLM not configured or failed.)"
  const SentenceSeparator: string := "; "

  /** The sentences of a transcript: its stripped, non-empty `.`-separated pieces. */
  function Sentences(transcript: string): (r: seq<string>)
    ensures forall i :: 0 <= i < |r| ==> r[i] != [] && Trimmed(Python, r[i]) && '.' !in r[i]
    ensures |r| <= CountChar(transcript, '.') + 1
  {
    Fields(Python, transcript, '.')
  }

  /**
   * `sentences[:6]`: the first sentences of the transcript, at most six of
   * them, and all of them when there are no more than six.
   */
  function KeptSentences(transcript: string): (r: seq<string>)
    ensures |r| <= FallbackLimit
    ensures r <= Sentences(transcript)
    ensures |Sentences(transcript)| <= FallbackLimit ==> r == Sentences(transcript)
    ensures |Sentences(transcript)| > FallbackLimit ==> |r| == FallbackLimit
  {
    var s := Sentences(transcript);
    if |s| <= FallbackLimit then s else s[..FallbackLimit]
  }

  /**
   * The summary given when no language model answers: the kept sentences,
   * joined by "; ", inside a fixed template.
   */
  function FallbackSummary(transcript: string): (r: string)
    ensures |r| >= |FallbackHead| + |FallbackTail|
    ensures r[..|FallbackHead|] == FallbackHead
    ensures r[|r| - |FallbackTail|..] == FallbackTail
  {
    FallbackHead + Join(KeptSentences(transcript), SentenceSeparator) + FallbackTail
  }

  /** A transcript without sentences (only dots and whitespace) gives the bare template. */
  lemma FallbackWithoutSentences(transcript: string)
    requires Blank(Python, transcript, '.')
    ensures FallbackSummary(transcript) == FallbackHead + FallbackTail
  {
    FieldsEmptyIff(Python, transcript, '.');
  }

  /** Sentences written out with dots are found again, as they were. */
  lemma SentencesOfJoin(parts: seq<string>)
    requires |parts| >= 1
    requires forall i :: 0 <= i < |parts| ==> parts[i] != [] && Trimmed(Python, parts[i]) && '.' !in parts[i]
    ensures Sentences(Join(parts, ".")) == parts
  {
    assert "." == ['.'];
    FieldsOfJoin(Python, parts, '.');
    CompactOfFields(Python, parts);
  }

  /**
   * Sentences written out with dots come back in the summary as they were,
   * joined by "; ", when there are at most six of them.
   */
  lemma FallbackOfSentences(parts: seq<string>)
    requires 1 <= |parts| <= FallbackLimit
    requires forall i :: 0 <= i < |parts| ==> parts[i] != [] && Trimmed(Python, parts[i]) && '.' !in parts[i]
    ensures FallbackSummary(Join(parts, ".")) == FallbackHead + Join(parts, SentenceSeparator) + FallbackTail
  {
    SentencesOfJoin(parts);
  }

  /** Once six sentences are found, the rest of the transcript makes no difference. */
  lemma FallbackIgnoresTheRest(first: string, rest: string)
    requires |Sentences(first)| >= FallbackLimit
    ensures FallbackSummary(first + "." + rest) == FallbackSummary(first)
  {
    FieldsAround(Python, first, rest, '.');
    var s, t := Sentences(first), Sentences(rest);
    assert first + "." + rest == first + ['.'] + rest;
    assert Sentences(first + "." + rest) == s + t;
    assert (s + t)[..FallbackLimit] == s[..FallbackLimit];
    assert KeptSentences(first) == s[..FallbackLimit];
    assert KeptSentences(first + "." + rest) == s[..FallbackLimit];
  }

  // ------------------------------------------------------ language model choice

  datatype Provider = OpenAI | Groq

  datatype LlmConfig = LlmConfig(openaiKey: Option<string>, groqKey: Option<string>)

  /** What a chat-completion call does: answer with text, or raise. */
  datatype LlmCall = Reply(text: string) | Raised

  /** A language model: from (instruction, transcript) to what the call does. */
  type Llm = (string, string) -> LlmCall

  /** The model `generate_summary` calls: OpenAI when its key is set, else Groq when its key is set. */
  function ChosenProvider(cfg: LlmConfig): (p: Option<Provider>)
    ensures p == Some(OpenAI) <==> Truthy(cfg.openaiKey)
    ensures p == Some(Groq) <==> !Truthy(cfg.openaiKey) && Truthy(cfg.groqKey)
  {
    if Truthy(cfg.openaiKey) then Some(OpenAI)
    else if Truthy(cfg.groqKey) then Some(Groq)
    else None
  }

  /**
   * `generate_summary`: the chosen model's answer, or the fallback summary
   * when no model is configured or the chosen one raises.
   */
  function GenerateSummary(cfg: LlmConfig, openai: Llm, groq: Llm, instruction: string, transcript: string): string {
    var call :=
      match ChosenProvider(cfg)
      case Some(OpenAI) => openai(instruction, transcript)
      case Some(Groq) => groq(instruction, transcript)
      case None => Raised;
    match call
    case Reply(text) => text
    case Raised => FallbackSummary(transcript)
  }

  /** With an OpenAI key, OpenAI decides the summary and Groq is never consulted. */
  lemma OpenAIFirst(cfg: LlmConfig, openai: Llm, groq: Llm, groq': Llm, instruction: string, transcript: string)
    requires Truthy(cfg.openaiKey)
    ensures GenerateSummary(cfg, openai, groq, instruction, transcript)
         == GenerateSummary(cfg, openai, groq', instruction, transcript)
    ensures GenerateSummary(cfg, openai, groq, instruction, transcript)
         == if openai(instruction, transcript).Reply? then openai(instruction, transcript).text
            else FallbackSummary(transcript)
  {
  }

  /** With only a Groq key, Groq decides the summary and OpenAI is never consulted. */
  lemma GroqSecond(cfg: LlmConfig, openai: Llm, openai': Llm, groq: Llm, instruction: string, transcript: string)
    requires !Truthy(cfg.openaiKey) && Truthy(cfg.groqKey)
    ensures GenerateSummary(cfg, openai, groq, instruction, transcript)
         == GenerateSummary(cfg, openai', groq, instruction, transcript)
    ensures GenerateSummary(cfg, openai, groq, instruction, transcript)
         == if groq(instruction, transcript).Reply? then groq(instruction, transcript).text
            else FallbackSummary(transcript)
  {
  }

  /** With neither key, the summary is the fallback, whatever the models would say. */
  lemma FallbackWhenUnconfigured(cfg: LlmConfig, openai: Llm, groq: Llm, instruction: string, transcript: string)
    requires !Truthy(cfg.openaiKey) && !Truthy(cfg.groqKey)
    ensures GenerateSummary(cfg, openai, groq, instruction, transcript) == FallbackSummary(transcript)
  {
  }

  // ------------------------------------------------------------- /summarize/

  /** An uploaded file, as the text its bytes decode to. */
  datatype Upload = Upload(content: string)

  /** The multipart fields of `POST /summarize/`, each of which may be absent. */
  datatype SummarizeForm = SummarizeForm(instruction: Option<string>, file: Option<Upload>, transcript: Option<string>)

  const MissingInput: string := "Provide a file or transcript text."
  const DefaultInstruction: string := "Summarize in bullet points focusing on action items, owners and deadlines."

  /**
   * The transcript to summarise: an uploaded file wins over the transcript
   * field; without a file a non-empty transcript field is used; otherwise the
   * request fails with 400.
   */
  function SelectTranscript(form: SummarizeForm): (r: Result<string, Failure>)
    ensures r.Err? <==> form.file.None? && !Truthy(form.transcript)
    ensures r.Err? ==> r.error == HttpError(400, MissingInput)
    ensures form.file.Some? ==> r == Ok(form.file.value.content)
    ensures r.Ok? && form.file.None? ==> r.value != "" && form.transcript == Some(r.value)
  {
    if form.file.Some? then Ok(form.file.value.content)
    else if Truthy(form.transcript) then Ok(form.transcript.value)
    else Err(HttpError(400, MissingInput))
  }

  /** The instruction given, or the fixed default when it is missing or empty; never empty. */
  function EffectiveInstruction(instruction: Option<string>): (r: string)
    ensures r != ""
    ensures Truthy(instruction) ==> r == instruction.value
    ensures !Truthy(instruction) ==> r == DefaultInstruction
  {
    if Truthy(instruction) then instruction.value else DefaultInstruction
  }

  /**
   * `summarize_endpoint`: the summary of the selected transcript under the
   * effective instruction, or 400 when there is nothing to summarise.
   */
  function Summarize(cfg: LlmConfig, openai: Llm, groq: Llm, form: SummarizeForm): (r: Result<string, Failure>)
    ensures r.Err? <==> form.file.None? && !Truthy(form.transcript)
    ensures r.Err? ==> StatusOf(r.error) == 400
  {
    match SelectTranscript(form)
    case Err(e) => Err(e)
    case Ok(transcript) => Ok(GenerateSummary(cfg, openai, groq, EffectiveInstruction(form.instruction), transcript))
  }

  /** When a file is uploaded, what the transcript field holds makes no difference. */
  lemma FileOverridesTranscript(cfg: LlmConfig, openai: Llm, groq: Llm, form: SummarizeForm, other: Option<string>)
    requires form.file.Some?
    ensures Summarize(cfg, openai, groq, form) == Summarize(cfg, openai, groq, form.(transcript := other))
    ensures Summarize(cfg, openai, groq, form)
         == Ok(GenerateSummary(cfg, openai, groq, EffectiveInstruction(form.instruction), form.file.value.content))
  {
  }

  // ------------------------------------------------------------ /send-email/

  datatype EmailConfig = EmailConfig(
    resendKey: Option<string>,
    smtpHost: Option<string>,
    smtpUser: Option<string>,
    smtpPass: Option<string>)

  /** The JSON body of `POST /send-email/`. */
  datatype SendEmailRequest = SendEmailRequest(subject: string, html: string, recipients: seq<string>)

  /** What a mail service does with a message: deliver it, or raise. */
  datatype Delivery = Delivered | Failed

  type Mailer = SendEmailRequest -> Delivery

  datatype EmailProvider = Resend | Smtp

  const NoEmailProvider: string := "No email provider configured (set RESEND_API_KEY or SMTP_ vars)."

  predicate SmtpConfigured(cfg: EmailConfig) {
    Truthy(cfg.smtpHost) && Truthy(cfg.smtpUser) && Truthy(cfg.smtpPass)
  }

  /**
   * `send_email_endpoint`: Resend when its key is set and it delivers;
   * otherwise SMTP when host, user and password are all set (a failure there
   * is not caught); otherwise 500. Every failure is a 500.
   */
  function SendEmail(cfg: EmailConfig, resend: Mailer, smtp: Mailer, req: SendEmailRequest): (r: Result<EmailProvider, Failure>)
    ensures r == Ok(Resend) <==> Truthy(cfg.resendKey) && resend(req) == Delivered
    ensures r == Ok(Smtp) <==> !(Truthy(cfg.resendKey) && resend(req) == Delivered) && SmtpConfigured(cfg) && smtp(req) == Delivered
    ensures r == Err(HttpError(500, NoEmailProvider)) <==> !(Truthy(cfg.resendKey) && resend(req) == Delivered) && !SmtpConfigured(cfg)
    ensures r.Err? ==> StatusOf(r.error) == 500
  {
    if Truthy(cfg.resendKey) && resend(req) == Delivered then Ok(Resend)
    else if SmtpConfigured(cfg) then
      if smtp(req) == Delivered then Ok(Smtp) else Err(Uncaught)
    else Err(HttpError(500, NoEmailProvider))
  }

  /** Once Resend delivers, the SMTP settings and service make no difference. */
  lemma ResendFirst(cfg: EmailConfig, cfg': EmailConfig, resend: Mailer, smtp: Mailer, smtp': Mailer, req: SendEmailRequest)
    requires Truthy(cfg.resendKey) && resend(req) == Delivered
    requires cfg'.resendKey == cfg.resendKey
    ensures SendEmail(cfg, resend, smtp, req) == SendEmail(cfg', resend, smtp', req) == Ok(Resend)
  {
  }
}
