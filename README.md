# AI meeting summariser: a verified model of its text and selection logic

The summariser is a web page (`src/app/page.js`) and a FastAPI service
(`backend/main.py`). A user uploads or pastes a meeting transcript and asks for
a summary. The user can then edit the summary and email it to a
comma-separated list of recipients. This project models the parts of that code
that decide something. It does not model the network traffic around them.

- **Fallback summary** (`generate_summary`). When no language model is
  configured, or the chosen one raises, the transcript is split on `.`. Each
  piece is stripped and blank pieces are dropped. The first six sentences are
  joined with `"; "` inside a fixed `TL;DR:` template. An OpenAI key takes
  precedence over a Groq key.
- **Input selection for `POST /summarize/`.** An uploaded file wins over the
  transcript field. Without either, the request fails with 400. A missing or
  empty instruction is replaced by a fixed default.
- **Email provider cascade for `POST /send-email/`.** Resend is used first. The
  next choice is SMTP when host, user and password are all set. Otherwise the
  request fails with 500.
- **Page text transforms.** The recipient parser splits on `,`, trims each
  entry and drops the empty ones. The HTML builder makes one `<p>` paragraph
  per line and escapes only `<` and `>`.
- **Page state.** The `Home` class holds the component state. It models the
  guard before a summary request, the form that request carries, the
  `loading` flag, and the original and editable copies of the summary.

Files:

- `wrappers.dfy`: `Option` and `Result`.
- `text.dfy` (module `Text`): Python's `strip`/`split`/`join` and
  JavaScript's `trim`/`split`/`filter(Boolean)` as sequence functions.
  `Dialect` selects whose whitespace applies. Python's `str.isspace` also
  covers U+001C..U+001F and U+0085. JavaScript's `trim` also covers U+FEFF.
- `backend.dfy` (module `Backend`): `backend/main.py`.
- `page.dfy` (module `Page`): `src/app/page.js`.
- `flow.dfy` (module `Flow`): shows that the backend accepts every form the
  page sends.

Language models and mail services are function parameters. A model maps
(instruction, transcript) to `Reply(text)` or `Raised`. A mailer maps the
request to `Delivered` or `Failed`. So "Groq is never called" is stated as
"the result does not depend on the Groq function". Environment settings are
`Option<string>` values. As in Python, an empty string counts as unset
(`Truthy`).

`generateSummary` on the page awaits the request. The model splits it at that
point into `StartGenerate` and `FinishGenerate`. `StartGenerate` runs the
guard, builds the form and sets `loading`. `FinishGenerate` receives the
outcome, updates the summaries on success and clears `loading`.

On success, `/send-email/` answers with the provider that was used, not with
an empty object. An SMTP failure is not caught, so the framework answers 500
(`Failure.Uncaught`).

The `&` gap: escaping leaves `&` as it is. A line that contains `&` therefore
does not read back as it was written. `UnescapeEscape` proves the round trip
only for lines without `&`. `AmpersandAmbiguity` shows that the lines `&lt;`
and `<` produce the same HTML. Both lemmas describe the code as written.

## Model

| member | source | states |
|---|---|---|
| Text.TrimStartCharacterised | backend/main.py:95 | removing leading whitespace leaves a suffix, everything removed is whitespace, and the suffix does not start with whitespace |
| Text.TrimEndCharacterised | backend/main.py:95 | removing trailing whitespace leaves a prefix, everything removed is whitespace, and the prefix does not end with whitespace |
| Text.TrimCharacterised | backend/main.py:95 | `strip`/`trim` returns the factor of the input between a whitespace prefix and a whitespace suffix, and that factor begins and ends with non-whitespace |
| Text.Trim | backend/main.py:95 | `str.strip()` and `String.prototype.trim()`: by `TrimCharacterised` the result is the factor of the input between a whitespace prefix and a whitespace suffix and starts and ends with non-whitespace; by `TrimOfPadded` that description fixes the result; by `TrimEmptyIff` it is empty exactly when the input is all whitespace |
| Text.TrimOfPadded | src/app/page.js:58 | trimming whitespace + a trimmed core + whitespace gives exactly that core, so the characterisation determines the result |
| Text.TrimIdempotent | src/app/page.js:58 | trimming twice is the same as trimming once |
| Text.TrimEmptyIff | src/app/page.js:27 | a string trims to "" exactly when every character is whitespace |
| Text.Join | backend/main.py:97 | `sep.join(parts)` and `parts.join(sep)`: by `Split`'s contract joining the pieces of a split gives back the input, and by `SplitOfJoin` splitting a join of separator-free parts gives back the parts |
| Text.Split | backend/main.py:95 | `split(sep)` yields one more piece than there are separators, no piece holds the separator, and joining the pieces with the separator gives back the input |
| Text.SplitAround | backend/main.py:95 | splitting `a + sep + b` gives the pieces of `a` followed by the pieces of `b` |
| Text.SplitNoSep | backend/main.py:95 | a string without the separator splits into itself alone |
| Text.SplitOfJoin | backend/main.py:95 | splitting separator-free pieces joined by the separator gives back the same pieces |
| Text.Compact | backend/main.py:95 | the strip-and-drop-blanks comprehension (and `map(trim).filter(Boolean)`): no more results than parts; by `CompactWellFormed` each is non-empty and stripped; by `CompactAppend` it works part by part in order; by `CompactKeepsAll` every non-blank part is kept, stripped, in place; by `CompactEmptyIff` nothing is kept exactly when every part is whitespace |
| Text.CompactWellFormed | backend/main.py:95 | every kept piece is non-empty and stripped |
| Text.CompactAppend | backend/main.py:95 | the strip-and-drop-blanks step works piece by piece and keeps order |
| Text.CompactKeepsAll | backend/main.py:95 | when no piece is blank, every piece is kept, stripped, in its place |
| Text.CompactOfFields | backend/main.py:95 | pieces that are already non-empty and stripped come through unchanged |
| Text.CompactEmptyIff | backend/main.py:95 | nothing is kept exactly when every piece is whitespace |
| Text.Fields | src/app/page.js:58 | every field is non-empty, trimmed and separator-free, and there are at most one more than the separators |
| Text.FieldsAround | src/app/page.js:58 | the fields of `a + sep + b` are the fields of `a` followed by those of `b` |
| Text.FieldsSingle | src/app/page.js:58 | a separator-free string is one field (itself, trimmed), or no field when it is all whitespace |
| Text.FieldsOfJoin | src/app/page.js:58 | the fields of separator-free parts joined by the separator are exactly the parts trimmed, blanks dropped, in order |
| Text.FieldsEmptyIff | src/app/page.js:58 | there are no fields exactly when the input holds only separators and whitespace |
| Backend.Sentences | backend/main.py:95 | every sentence is non-empty, stripped and dot-free, with at most one more than the dots; by `FieldsAround` and `FieldsSingle` (with `.` and Python whitespace) the sentences are the stripped non-blank `.`-pieces in order, and by `SentencesOfJoin` written-out sentences come back exactly |
| Backend.KeptSentences | backend/main.py:96 | at most six sentences are kept, they are the first ones, all are kept when there are six or fewer, and exactly six are kept otherwise |
| Backend.FallbackSummary | backend/main.py:97 | the fallback starts with `"TL;DR:\n- "` and ends with `"\n\n(Note: LLM not configured or failed.)"` |
| Backend.FallbackWithoutSentences | backend/main.py:95-97 | a transcript of only dots and whitespace gives the template with an empty middle |
| Backend.SentencesOfJoin | backend/main.py:95 | stripped, dot-free, non-empty sentences written out with `.` are found again exactly, in order |
| Backend.FallbackOfSentences | backend/main.py:94-97 | up to six such sentences appear in the summary as they were, joined by `"; "` |
| Backend.FallbackIgnoresTheRest | backend/main.py:95-97 | once the transcript has six sentences, the text after them does not change the summary |
| Backend.GenerateSummary | backend/main.py:81-97 | by `OpenAIFirst`: with an OpenAI key, OpenAI's reply, or the fallback when it raises, whatever Groq does; by `GroqSecond`: with only a Groq key, Groq's reply or the fallback, whatever OpenAI does; by `FallbackWhenUnconfigured`: with neither key, the fallback summary |
| Backend.ChosenProvider | backend/main.py:86-90 | OpenAI is chosen exactly when its key is set; Groq is chosen exactly when only the Groq key is set |
| Backend.OpenAIFirst | backend/main.py:86-97 | with an OpenAI key the summary does not depend on Groq, and it is OpenAI's reply, or the fallback when OpenAI raises |
| Backend.GroqSecond | backend/main.py:86-97 | with only a Groq key the summary does not depend on OpenAI, and it is Groq's reply, or the fallback when Groq raises |
| Backend.FallbackWhenUnconfigured | backend/main.py:86-97 | with neither key the summary is the fallback, whatever the models would answer |
| Backend.SelectTranscript | backend/main.py:147-156 | a file's contents win over the transcript field; without a file a non-empty transcript field is used; the request fails with 400 "Provide a file or transcript text." exactly when there is neither |
| Backend.EffectiveInstruction | backend/main.py:158-159 | a non-empty instruction passes through unchanged; a missing or empty one becomes the fixed default; the result is never empty |
| Backend.Summarize | backend/main.py:141-162 | the endpoint fails exactly when there is no file and no non-empty transcript, and that failure is a 400 |
| Backend.FileOverridesTranscript | backend/main.py:147-162 | with a file present the transcript field makes no difference, and the answer is the summary of the file's contents under the effective instruction |
| Backend.SendEmail | backend/main.py:164-177 | "resend" is answered exactly when the Resend key is set and Resend delivers; "smtp" exactly when Resend did not deliver, host, user and password are all set, and SMTP delivers; the "No email provider configured" 500 exactly when Resend did not deliver and SMTP is not fully configured; every failure is a 500 |
| Backend.ResendFirst | backend/main.py:166-169 | once Resend delivers, the answer is "resend" under any configuration with the same Resend key, whatever the SMTP host, user, password and service |
| Page.ParseRecipients | src/app/page.js:58 | every recipient is non-empty, has no whitespace at either end and holds no comma; there are at most one more than the commas |
| Page.NoRecipientsIff | src/app/page.js:58-62 | the recipient list is empty exactly when the field holds only commas and whitespace |
| Page.RecipientsAround | src/app/page.js:58 | the entries before and after a comma are parsed independently and keep their order |
| Page.RecipientsSingle | src/app/page.js:58 | one comma-free entry is kept trimmed, or dropped when it is all whitespace |
| Page.ReplaceAll | src/app/page.js:67 | after a global replace of `c` by a text without `c`, no `c` is left, and every other character not in the replacement occurs in the result exactly when it occurs in the input |
| Page.EscapeLine | src/app/page.js:67 | an escaped line holds no `<` and no `>` |
| Page.EscapeLineCharwise | src/app/page.js:67 | the two global replacements equal escaping each character on its own: `<` becomes `&lt;`, `>` becomes `&gt;`, every other character (`&` included) is copied |
| Page.EscapeEachLength | src/app/page.js:67 | escaping adds three characters per angle bracket and no others |
| Page.EscapeEachPlain | src/app/page.js:67 | text without angle brackets is copied unchanged |
| Page.UnescapeEscape | src/app/page.js:67 | a line without `&` reads back from its escaped form exactly |
| Page.AmpersandAmbiguity | src/app/page.js:67 | the lines `&lt;` and `<` escape to the same text, because `&` is not escaped |
| Page.Paragraph | src/app/page.js:67 | one line as `<p>` + its escaped text + `</p>`; by `EscapeLine` no angle bracket of the line survives inside, and by `PlainParagraph` a plain line is wrapped as it is |
| Page.EmailHtml | src/app/page.js:65-68 | one paragraph per `\n`-separated line, concatenated: by `EmailHtmlAround` lines on either side of a newline are converted independently; by `EmailHtmlOneLine` one line gives exactly `<p>` + its escaped text + `</p>`; by `ParagraphCount` there are `2 * (newlines + 1)` of each angle bracket |
| Page.EmailHtmlAround | src/app/page.js:65-68 | the lines before and after a newline become paragraphs independently and are concatenated without separator |
| Page.EmailHtmlOneLine | src/app/page.js:65-68 | a line without newline becomes exactly `<p>` + its escaped text + `</p>` |
| Page.EmailHtmlEmpty | src/app/page.js:65-68 | the empty summary gives `<p></p>` |
| Page.ParagraphCount | src/app/page.js:65-68 | the body holds `2 * (newlines + 1)` of each angle bracket, that is one `<p>…</p>` per line |
| Page.PlainParagraph | src/app/page.js:65-68 | a line without angle brackets or newline becomes `<p>` + the line + `</p>` |
| Page.TwoPlainLines | src/app/page.js:65-68 | two plain lines separated by a newline become `<p>a</p><p>b</p>` |
| Page.SummaryRequest | src/app/page.js:27-36 | no request exactly when there is no file and the transcript is all whitespace; otherwise the form carries the file if there is one, else the (non-empty) transcript text, and the instruction |
| Page.Home.constructor | src/app/page.js:6-12 | the page starts with no file, empty texts, the executive-summary prompt and `loading` false |
| Page.Home.StartGenerate | src/app/page.js:26-41 | the form handed out is the guarded request built from the current file, text and instruction; when refused nothing changes, otherwise `loading` becomes true; no other field changes |
| Page.Home.FinishGenerate | src/app/page.js:42-54 | on a successful answer the original and the editable summary both become its `summary` (or "" without one); on an error status or a thrown error neither changes; `loading` is false afterwards; no other field changes |
| Page.Home.EditSummary | src/app/page.js:115 | an edit changes only the editable copy; the original summary and everything else stay |
| Page.Home.PrepareEmail | src/app/page.js:57-68 | no request exactly when the recipients field holds only commas and whitespace; otherwise subject "Meeting Summary", the HTML body of the edited summary and the non-empty parsed recipient list |
| Flow.Received | src/app/page.js:33-36 | the backend receives the instruction, and a file exactly when the page attached one |
| Flow.PageFormsAreAccepted | backend/main.py:147-159 | every form the page's guard lets through is accepted by the backend; the backend summarises the file's contents if a file was picked, else the typed transcript, under the page's instruction unless that is empty |

## Left out

- The language-model calls `call_openai` and `call_groq` are left out as HTTP I/O (backend/main.py:39-79). They are function parameters whose reply, already stripped, is opaque. The request payloads, model names, temperatures and the `print` logging are not modelled.
- Resend and SMTP sending are left out as HTTP and SMTP I/O (backend/main.py:99-132). They are function parameters that deliver or fail. `RESEND_FROM`, `SMTP_PORT`, `SMTP_FROM` and the MIME message are not modelled.
- The response JSON is reduced. `/summarize/` yields the summary string. `/send-email/` yields the provider, without the Resend response body.
- Byte decoding of an uploaded file is left to library codecs: UTF-8, with latin-1 as the fallback (backend/main.py:148-152). `Upload` holds the decoded text.
- Environment loading, CORS middleware and pydantic validation of `EmailStr` recipients are left out as framework behaviour (backend/main.py:10-36, 135-138). Configuration is a parameter.
- Strings are sequences of Unicode code points. JavaScript's UTF-16 code units are not modelled. The separators and bracket characters involved are all single code units, so splitting and escaping are unaffected.
- `fetch` calls are outside the model. `StartGenerate` and `PrepareEmail` hand out the form or payload that would be sent. `FinishGenerate` receives the outcome of the request as a parameter.
- Page.FinishGenerate: `j.summary` is a `string` or absent. A non-string `summary` value in the JSON is not modelled.
- Events that happen during the request's `await` are not modelled. The page disables the button while `loading`, and the model only asks that `FinishGenerate` follow a started request.
- The `alert` messages and `console.error` are left out as UI, and so are React rendering, the other `onChange` bindings, and the `FileReader` in `onFileChange` (src/app/page.js:14-24, 88-130). The outcome of the email request is only shown to the user and changes no state, so it is not modelled.
- `src/app/summarize.js` and the proxy route `src/app/api/summarize/route.js` are not part of this model. The first is a second form with one fetch. The second only forwards a request after a presence check.
