/**
 * The summariser's web page (src/app/page.js): the guard and form built before
 * a summary is requested, the component state around that request, and the
 * recipient list and HTML body built before an email is requested.
 *
 * The requests themselves go over the network and are outside the model: the
 * page hands out the form or payload it would send, and is told the outcome.
 */
module Page {
  import opened Wrappers
  import opened Text

  const DefaultPrompt: string := "Summarize in bullet points for executives. Emphasize action items with owners and deadlines."
  const EmailSubject: string := "Meeting Summary"

  // ------------------------------------------------------------- recipients

  /**
   * `recipients.split(",").map(s => s.trim()).filter(Boolean)`: the trimmed,
   * non-empty comma-separated entries, in order; none holds a comma or has
   * whitespace at either end.
   */
  function ParseRecipients(input: string): (r: seq<string>)
    ensures forall i :: 0 <= i < |r| ==> r[i] != [] && Trimmed(JavaScript, r[i]) && ',' !in r[i]
    ensures |r| <= CountChar(input, ',') + 1
  {
    Fields(JavaScript, input, ',')
  }

  /** The recipient list is empty exactly when the input holds only commas and whitespace. */
  lemma NoRecipientsIff(input: string)
    ensures ParseRecipients(input) == [] <==> Blank(JavaScript, input, ',')
  {
    FieldsEmptyIff(JavaScript, input, ',');
  }

  /** Entries around a comma are parsed independently, so order is kept. */
  lemma RecipientsAround(a: string, b: string)
    ensures ParseRecipients(a + "," + b) == ParseRecipients(a) + ParseRecipients(b)
  {
    assert a + "," + b == a + [','] + b;
    FieldsAround(JavaScript, a, b, ',');
  }

  /** One entry without a comma is kept, trimmed, unless it is all whitespace. */
  lemma RecipientsSingle(entry: string)
    requires ',' !in entry
    ensures ParseRecipients(entry) == if AllWs(JavaScript, entry) then [] else [Trim(JavaScript, entry)]
  {
    FieldsSingle(JavaScript, entry, ',');
  }

  // --------------------------------------------------------------- escaping

  /** `s.replace(/c/g, rep)`: every occurrence of `c` replaced by `rep`. */
  function ReplaceAll(s: string, c: char, rep: string): (r: string)
    ensures c !in rep ==> c !in r
    ensures forall x :: x != c && x !in rep ==> (x in r <==> x in s)
  {
    if s == [] then []
    else
      var rest := ReplaceAll(s[1..], c, rep);
      var r := (if s[0] == c then rep else [s[0]]) + rest;
      assert forall x :: x in s <==> x == s[0] || x in s[1..];
      r
  }

  /** The escaped form of one character: `<` and `>` become entities, all else is kept. */
  function EscapeChar(c: char): string {
    if c == '<' then "&lt;" else if c == '>' then "&gt;" else [c]
  }

  /** Character-by-character escaping: the reference definition for `EscapeLine`. */
  function EscapeEach(s: string): string {
    if s == [] then [] else EscapeChar(s[0]) + EscapeEach(s[1..])
  }

  /**
   * `line.replace(/</g, "&lt;").replace(/>/g, "&gt;")`: no angle bracket is
   * left in the result. Nothing else, `&` included, is escaped.
   */
  function EscapeLine(line: string): (r: string)
    ensures '<' !in r && '>' !in r
  {
    ReplaceAll(ReplaceAll(line, '<', "&lt;"), '>', "&gt;")
  }

  lemma {:induction false} ReplaceAllAppend(a: string, b: string, c: char, rep: string)
    ensures ReplaceAll(a + b, c, rep) == ReplaceAll(a, c, rep) + ReplaceAll(b, c, rep)
  {
    if a == [] {
      assert a + b == b;
    } else {
      assert (a + b)[0] == a[0] && (a + b)[1..] == a[1..] + b;
      ReplaceAllAppend(a[1..], b, c, rep);
    }
  }

  lemma {:induction false} ReplaceAllAbsent(s: string, c: char, rep: string)
    requires c !in s
    ensures ReplaceAll(s, c, rep) == s
  {
    if s != [] {
      assert s[0] in s;
      ReplaceAllAbsent(s[1..], c, rep);
      assert [s[0]] + s[1..] == s;
    }
  }

  /** The two global replacements amount to escaping each character on its own. */
  lemma {:induction false} EscapeLineCharwise(s: string)
    ensures EscapeLine(s) == EscapeEach(s)
  {
    if s != [] {
      EscapeLineCharwise(s[1..]);
      var first := ReplaceAll([s[0]], '<', "&lt;");
      assert [s[0]] + s[1..] == s;
      ReplaceAllAppend([s[0]], s[1..], '<', "&lt;");
      assert ReplaceAll(s, '<', "&lt;") == first + ReplaceAll(s[1..], '<', "&lt;");
      ReplaceAllAppend(first, ReplaceAll(s[1..], '<', "&lt;"), '>', "&gt;");
      assert [s[0]][1..] == [];
      if s[0] == '<' {
        assert first == "&lt;" + [];
        assert "&lt;" + [] == "&lt;";
        ReplaceAllAbsent("&lt;", '>', "&gt;");
        assert ReplaceAll(first, '>', "&gt;") == "&lt;";
      } else {
        assert first == [s[0]] + [];
        assert [s[0]] + [] == [s[0]];
        assert ReplaceAll([s[0]], '>', "&gt;") == (if s[0] == '>' then "&gt;" else [s[0]]) + ReplaceAll([], '>', "&gt;");
      }
      assert ReplaceAll(first, '>', "&gt;") == EscapeChar(s[0]);
    }
  }

  /** Escaping adds three characters for each angle bracket. */
  lemma {:induction false} EscapeEachLength(s: string)
    ensures |EscapeEach(s)| == |s| + 3 * (CountChar(s, '<') + CountChar(s, '>'))
  {
    if s != [] {
      EscapeEachLength(s[1..]);
    }
  }

  /** Text without angle brackets is copied unchanged. */
  lemma {:induction false} EscapeEachPlain(s: string)
    requires '<' !in s && '>' !in s
    ensures EscapeEach(s) == s
  {
    if s != [] {
      assert s[0] in s;
      EscapeEachPlain(s[1..]);
      assert [s[0]] + s[1..] == s;
    }
  }

  /** What a browser shows for the escaped text: `&lt;` and `&gt;` read back as `<` and `>`. */
  function Unescape(t: string): string
    decreases |t|
  {
    if t == [] then []
    else if |t| >= 4 && t[..4] == "&lt;" then "<" + Unescape(t[4..])
    else if |t| >= 4 && t[..4] == "&gt;" then ">" + Unescape(t[4..])
    else [t[0]] + Unescape(t[1..])
  }

  /** A line without `&` reads back as it was written. */
  lemma {:induction false} UnescapeEscape(s: string)
    requires '&' !in s
    ensures Unescape(EscapeLine(s)) == s
  {
    EscapeLineCharwise(s);
    UnescapeEach(s);
  }

  lemma {:induction false} UnescapeEach(s: string)
    requires '&' !in s
    ensures Unescape(EscapeEach(s)) == s
  {
    if s != [] {
      assert s[0] in s;
      UnescapeEach(s[1..]);
      var e := EscapeEach(s);
      var rest := EscapeEach(s[1..]);
      assert e == EscapeChar(s[0]) + rest;
      if s[0] == '<' {
        assert e[..4] == "&lt;" && e[4..] == rest;
      } else if s[0] == '>' {
        assert e[..4] == "&gt;" && e[4..] == rest;
      } else {
        assert e[0] == s[0] && e[1..] == rest;
      }
      assert [s[0]] + s[1..] == s;
    }
  }

  /** Because `&` is not escaped, two different lines can give the same HTML. */
  lemma AmpersandAmbiguity()
    ensures EscapeLine("&lt;") == EscapeLine("<") == "&lt;"
  {
  }

  // -------------------------------------------------------------- HTML body

  /** One line of the summary as a paragraph. */
  function Paragraph(line: string): string {
    "<p>" + EscapeLine(line) + "</p>"
  }

  function Paragraphs(lines: seq<string>): string {
    if lines == [] then [] else Paragraph(lines[0]) + Paragraphs(lines[1..])
  }

  /**
   * The email body: one `<p>` paragraph per `\n`-separated line of the
   * summary, concatenated without separator.
   */
  function EmailHtml(summary: string): string {
    Paragraphs(Split(summary, '\n'))
  }

  lemma {:induction false} ParagraphsAppend(a: seq<string>, b: seq<string>)
    ensures Paragraphs(a + b) == Paragraphs(a) + Paragraphs(b)
  {
    if a == [] {
      assert a + b == b;
    } else {
      assert (a + b)[0] == a[0] && (a + b)[1..] == a[1..] + b;
      ParagraphsAppend(a[1..], b);
    }
  }

  /** The lines on either side of a newline become paragraphs independently. */
  lemma EmailHtmlAround(a: string, b: string)
    ensures EmailHtml(a + "\n" + b) == EmailHtml(a) + EmailHtml(b)
  {
    assert a + "\n" + b == a + ['\n'] + b;
    SplitAround(a, b, '\n');
    ParagraphsAppend(Split(a, '\n'), Split(b, '\n'));
  }

  /** A single line becomes a single paragraph. */
  lemma EmailHtmlOneLine(line: string)
    requires '\n' !in line
    ensures EmailHtml(line) == "<p>" + EscapeLine(line) + "</p>"
  {
    SplitNoSep(line, '\n');
    assert [line][1..] == [];
    assert Paragraphs([line]) == Paragraph(line) + Paragraphs([]);
    assert Paragraph(line) + [] == Paragraph(line);
  }

  /** The empty summary gives one empty paragraph. */
  lemma EmailHtmlEmpty()
    ensures EmailHtml("") == "<p></p>"
  {
  }

  /**
   * There is one paragraph more than there are newlines: every paragraph
   * contributes one `<` and one `>` to each of its two tags, and the escaped
   * text contributes none.
   */
  lemma {:induction false} ParagraphsBrackets(lines: seq<string>)
    ensures CountChar(Paragraphs(lines), '<') == 2 * |lines|
    ensures CountChar(Paragraphs(lines), '>') == 2 * |lines|
  {
    if lines != [] {
      ParagraphsBrackets(lines[1..]);
      var e := EscapeLine(lines[0]);
      CountCharAbsent(e, '<');
      CountCharAbsent(e, '>');
      CountCharAppend("<p>" + e, "</p>", '<');
      CountCharAppend("<p>", e, '<');
      CountCharAppend("<p>" + e, "</p>", '>');
      CountCharAppend("<p>", e, '>');
      CountCharAppend(Paragraph(lines[0]), Paragraphs(lines[1..]), '<');
      CountCharAppend(Paragraph(lines[0]), Paragraphs(lines[1..]), '>');
    }
  }

  lemma ParagraphCount(summary: string)
    ensures CountChar(EmailHtml(summary), '<') == 2 * (CountChar(summary, '\n') + 1)
    ensures CountChar(EmailHtml(summary), '>') == 2 * (CountChar(summary, '\n') + 1)
  {
    ParagraphsBrackets(Split(summary, '\n'));
  }

  /** A line without angle brackets becomes a paragraph around the line itself. */
  lemma PlainParagraph(line: string)
    requires '\n' !in line && '<' !in line && '>' !in line
    ensures EmailHtml(line) == "<p>" + line + "</p>"
  {
    EmailHtmlOneLine(line);
    EscapeLineCharwise(line);
    EscapeEachPlain(line);
  }

  /** Two plain lines become two plain paragraphs, with nothing between them. */
  lemma TwoPlainLines(a: string, b: string)
    requires '\n' !in a && '<' !in a && '>' !in a
    requires '\n' !in b && '<' !in b && '>' !in b
    ensures EmailHtml(a + "\n" + b) == "<p>" + a + "</p><p>" + b + "</p>"
  {
    EmailHtmlAround(a, b);
    PlainParagraph(a);
    PlainParagraph(b);
  }

  // ---------------------------------------------------- the summary request

  /** A `File` the user picked, as the text it holds. */
  datatype FileRef = FileRef(content: string)

  /** Which field carries the transcript in the multipart form. */
  datatype Source = FileField(file: FileRef) | TranscriptField(text: string)

  /** The multipart form sent to `/summarize/`: the transcript source and `instruction`. */
  datatype SummaryForm = SummaryForm(source: Source, instruction: string)

  /**
   * The guard and form of `generateSummary`: no request without a file and
   * with a transcript that is only whitespace; otherwise the form carries the
   * file if there is one, else the transcript text, and the instruction.
   */
  function SummaryRequest(file: Option<FileRef>, transcript: string, instruction: string): (form: Option<SummaryForm>)
    ensures form.None? <==> file.None? && AllWs(JavaScript, transcript)
    ensures form.Some? ==> form.value.instruction == instruction
    ensures form.Some? && file.Some? ==> form.value.source == FileField(file.value)
    ensures form.Some? && file.None? ==> form.value.source == TranscriptField(transcript) && transcript != ""
  {
    TrimEmptyIff(JavaScript, transcript);
    if file.None? && Trim(JavaScript, transcript) == [] then None
    else if file.Some? then Some(SummaryForm(FileField(file.value), instruction))
    else Some(SummaryForm(TranscriptField(transcript), instruction))
  }

  /** How the summary request ended, as `generateSummary` sees it. */
  datatype FetchOutcome =
    | Answered(summary: Option<string>)   // `res.ok`, with `j.summary` when present
    | Refused(detail: Option<string>)     // an error status, with `j.detail` when present
    | NetworkError                        // `fetch` or `res.json()` threw

  /** The email the page asks the backend to send. */
  datatype EmailPayload = EmailPayload(subject: string, html: string, recipients: seq<string>)

  /** The state of the `Home` component. */
  class Home {
    var file: Option<FileRef>
    var transcriptText: string
    var instruction: string
    var aiSummary: string
    var editedSummary: string
    var recipients: string
    var loading: bool

    constructor ()
      ensures file == None && transcriptText == "" && instruction == DefaultPrompt
      ensures aiSummary == "" && editedSummary == "" && recipients == ""
      ensures !loading
    {
      file := None;
      transcriptText := "";
      instruction := DefaultPrompt;
      aiSummary := "";
      editedSummary := "";
      recipients := "";
      loading := false;
    }

    /**
     * The first half of `generateSummary`, up to the `fetch`: either refuse
     * with nothing sent and nothing changed, or mark the page as loading and
     * hand out the form to send.
     */
    method StartGenerate() returns (form: Option<SummaryForm>)
      modifies this
      ensures form == SummaryRequest(file, transcriptText, instruction)
      ensures form.None? ==> loading == old(loading)
      ensures form.Some? ==> loading
      ensures file == old(file) && transcriptText == old(transcriptText) && instruction == old(instruction)
      ensures aiSummary == old(aiSummary) && editedSummary == old(editedSummary) && recipients == old(recipients)
    {
      form := SummaryRequest(file, transcriptText, instruction);
      if form.Some? {
        loading := true;
      }
    }

    /**
     * The second half of `generateSummary`, once the request has ended: on
     * success the original and the editable summary both become the answer's
     * summary (or "" without one); otherwise neither changes. Loading ends
     * whatever the outcome.
     */
    method FinishGenerate(outcome: FetchOutcome)
      requires loading
      modifies this
      ensures !loading
      ensures outcome.Answered? ==> aiSummary == editedSummary == outcome.summary.GetOr("")
      ensures !outcome.Answered? ==> aiSummary == old(aiSummary) && editedSummary == old(editedSummary)
      ensures file == old(file) && transcriptText == old(transcriptText) && instruction == old(instruction)
      ensures recipients == old(recipients)
    {
      if outcome.Answered? {
        var summary := outcome.summary.GetOr("");
        aiSummary := summary;
        editedSummary := summary;
      }
      loading := false;
    }

    /** Typing in the editable summary changes that copy only; the original stays. */
    method EditSummary(text: string)
      modifies this
      ensures editedSummary == text
      ensures aiSummary == old(aiSummary) && loading == old(loading)
      ensures file == old(file) && transcriptText == old(transcriptText) && instruction == old(instruction)
      ensures recipients == old(recipients)
    {
      editedSummary := text;
    }

    /**
     * `sendEmail` up to its `fetch`: no request when the recipient list is
     * empty, that is when the recipients field holds only commas and
     * whitespace; otherwise the fixed subject, the HTML body of the edited
     * summary and the parsed recipients.
     */
    method PrepareEmail() returns (payload: Option<EmailPayload>)
      ensures payload.None? <==> Blank(JavaScript, recipients, ',')
      ensures payload.Some? ==> payload.value.subject == EmailSubject
      ensures payload.Some? ==> payload.value.html == EmailHtml(editedSummary)
      ensures payload.Some? ==> payload.value.recipients == ParseRecipients(recipients) != []
    {
      var list := ParseRecipients(recipients);
      NoRecipientsIff(recipients);
      if list == [] {
        payload := None;
      } else {
        payload := Some(EmailPayload(EmailSubject, EmailHtml(editedSummary), list));
      }
    }
  }
}
