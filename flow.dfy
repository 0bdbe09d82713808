/**
 * The page and the service together: what the backend receives when the page
 * posts its summary form, and what it makes of it.
 */
module Flow {
  import opened Wrappers
  import Page
  import Backend

  /** The multipart form as the backend reads it: `instruction` is always sent, with one transcript source. */
  function Received(form: Page.SummaryForm): (r: Backend.SummarizeForm)
    ensures r.instruction == Some(form.instruction)
    ensures r.file.Some? <==> form.source.FileField?
  {
    match form.source
    case FileField(f) => Backend.SummarizeForm(Some(form.instruction), Some(Backend.Upload(f.content)), None)
    case TranscriptField(t) => Backend.SummarizeForm(Some(form.instruction), None, Some(t))
  }

  /**
   * A form the page's guard lets through is never refused by the backend: the
   * backend summarises the file's contents when a file was picked, and the
   * typed transcript otherwise, under the page's instruction unless that is
   * empty.
   */
  lemma PageFormsAreAccepted(file: Option<Page.FileRef>, transcript: string, instruction: string)
    requires Page.SummaryRequest(file, transcript, instruction).Some?
    ensures var sent := Received(Page.SummaryRequest(file, transcript, instruction).value);
      && Backend.SelectTranscript(sent) == Ok(if file.Some? then file.value.content else transcript)
      && Backend.EffectiveInstruction(sent.instruction) == if instruction == "" then Backend.DefaultInstruction else instruction
  {
  }
}
