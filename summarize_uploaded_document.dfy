/**
 * The summarisation flow `summarizeUploadedDocument`: a fixed prompt that
 * carries the document and, when a question is given, a clause naming it; the
 * model's text comes back as the summary.
 */
module SummarizeFlow {
  import opened Wrappers
  import opened Llm
  import opened Pieces

  /** `question` is optional: `None` is JavaScript's `undefined`. */
  datatype SummarizeInput = SummarizeInput(documentText: string, question: Option<string>)
  datatype SummarizeOutput = SummarizeOutput(summary: string)

  /** First line of the prompt. */
  const Header: string := "You are an expert summarizer, able to distill complex documents into concise and informative summaries."
  /** What stands between the header and the document. */
  const DocumentLabel: string := "\n\nDocument text: "
  /** Blank line around the optional clause. */
  const Gap: string := "\n\n"
  /** What introduces the question in the optional clause. */
  const QuestionLead: string := "Considering the question: "
  /** Last line of the prompt. */
  const Instruction: string := "Please provide a summary of the document, highlighting the key points and main arguments. The summary should be no more than 3 paragraphs."

  /** Where the document starts inside the prompt. */
  const DocumentStart: nat := |Header| + |DocumentLabel|

  /**
   * The middle segment `${input.question ? `Considering the question: ...` : ''}`:
   * JavaScript treats both `undefined` and the empty string as false.
   */
  function QuestionClause(question: Option<string>): (c: string)
    ensures question.Some? && question.value != "" ==> c == QuestionLead + question.value
    ensures question.None? || question.value == "" <==> c == ""
  {
    if question.Some? && question.value != "" then QuestionLead + question.value else ""
  }

  /** The prompt template: the document, then the question clause, each between blank lines. */
  function SummaryPrompt(documentText: string, question: Option<string>): string {
    Header + DocumentLabel + documentText + Gap + QuestionClause(question) + Gap + Instruction
  }

  /**
   * The layout of the prompt, whatever the inputs: the header, the document
   * label, the document, a blank line, the question clause, a blank line and
   * the instruction, each in its place.
   */
  lemma SummaryPromptLayout(documentText: string, question: Option<string>)
    ensures var p := SummaryPrompt(documentText, question);
      && |p| == |Header| + |DocumentLabel| + |documentText| + 2 * |Gap|
                + |QuestionClause(question)| + |Instruction|
      && p[..|Header|] == Header
      && p[|Header|..DocumentStart] == DocumentLabel
      && p[DocumentStart..DocumentStart + |documentText|] == documentText
      && p[DocumentStart + |documentText|..DocumentStart + |documentText| + |Gap|] == Gap
      && p[DocumentStart + |documentText| + |Gap|..|p| - |Gap| - |Instruction|] == QuestionClause(question)
      && p[|p| - |Gap| - |Instruction|..|p| - |Instruction|] == Gap
      && p[|p| - |Instruction|..] == Instruction
  {
    SevenPieces(Header, DocumentLabel, documentText, Gap, QuestionClause(question), Gap, Instruction);
  }

  /** An absent question and an empty one give the same prompt. */
  lemma EmptyQuestionIsNoQuestion(documentText: string)
    ensures SummaryPrompt(documentText, Some("")) == SummaryPrompt(documentText, None)
  {
  }

  /** A non-empty question appears verbatim in the prompt, right after its lead. */
  lemma QuestionAppearsInPrompt(documentText: string, question: string)
    requires question != ""
    ensures var p := SummaryPrompt(documentText, Some(question));
      var at := DocumentStart + |documentText| + |Gap| + |QuestionLead|;
      at + |question| <= |p| && p[at..at + |question|] == question
  {
    Regroup(Header, DocumentLabel, documentText, Gap, QuestionLead, question, Gap, Instruction);
    SevenPieces(Header, DocumentLabel, documentText, Gap + QuestionLead, question, Gap, Instruction);
  }

  /** Associativity of concatenation: the lead of the clause moves to the blank line before it. */
  lemma Regroup<T>(h: seq<T>, dl: seq<T>, d: seq<T>, g1: seq<T>, l: seq<T>, q: seq<T>, g2: seq<T>, i: seq<T>)
    ensures h + dl + d + g1 + (l + q) + g2 + i == h + dl + d + (g1 + l) + q + g2 + i
  {
  }

  /** Given the question, the prompt determines the document. */
  lemma SummaryPromptDeterminesDocument(d1: string, d2: string, question: Option<string>)
    requires SummaryPrompt(d1, question) == SummaryPrompt(d2, question)
    ensures d1 == d2
  {
    var p := SummaryPrompt(d1, question);
    SummaryPromptLayout(d1, question);
    SummaryPromptLayout(d2, question);
    assert |d1| == |d2|;
    assert d1 == p[DocumentStart..DocumentStart + |d1|] == d2;
  }

  /**
   * `summarizeUploadedDocument`: the model sees exactly the summary prompt of
   * the input; its text comes back unchanged as `summary`, and its failure
   * propagates unchanged.
   */
  function SummarizeUploadedDocument(input: SummarizeInput, llm: Oracle): (r: Result<SummarizeOutput, string>)
    ensures var reply := llm(SummaryPrompt(input.documentText, input.question));
      && (r.Ok? <==> reply.Ok?)
      && (r.Ok? ==> r.value.summary == reply.value)
      && (r.Err? ==> r.error == reply.error)
  {
    match llm(SummaryPrompt(input.documentText, input.question))
    case Ok(text) => Ok(SummarizeOutput(text))
    case Err(e) => Err(e)
  }
}
