/** The language-model calls the pipeline makes after the per-paper
    analysis. Each prompt keeps only the parts that vary between calls; the
    fixed instructions around them are not modelled. */
module Completion {
  import opened Wrappers

  datatype Prompt =
    /** The global hypothesis request: the topic and the findings context. */
    | GlobalSynthesis(topic: string, findings: string)
    /** The paper-writing request: the context the writer assembled. */
    | PaperDraft(context: string)

  /** A completion service: the reply text, or the message of the
      exception the client raised. */
  type Service = Prompt -> Result<string, string>
}
