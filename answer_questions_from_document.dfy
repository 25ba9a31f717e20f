/**
 * The question-answering flow `answerQuestionsFromDocument`: it puts the
 * document and the question into one fixed prompt, sends it to the model and
 * returns the generated text as the answer.
 */
module AnswerFlow {
  import opened Wrappers
  import opened Llm
  import opened Pieces

  datatype AnswerInput = AnswerInput(documentText: string, question: string)
  datatype AnswerOutput = AnswerOutput(answer: string)

  /** First line of the prompt. */
  const Header: string := "You are a chatbot that answers questions based on the content of a document."
  /** What stands between the header and the document. */
  const DocumentLabel: string := "\n\nDocument: "
  /** What stands between the document and the question. */
  const QuestionLabel: string := "\n\nQuestion: "
  /** Blank line after the question. */
  const Gap: string := "\n\n"
  /** Last line of the prompt. */
  const Instruction: string := "Based *only* on the document provided, what is the answer to the question?"

  /** Where the document starts inside the prompt. */
  const DocumentStart: nat := |Header| + |DocumentLabel|
  /** The length of the fixed text of the template. */
  const TemplateLength: nat := |Header| + |DocumentLabel| + |QuestionLabel| + |Gap| + |Instruction|

  /** The prompt template: both inputs are interpolated verbatim, with no truncation and no escaping. */
  function AnswerPrompt(documentText: string, question: string): string {
    Header + DocumentLabel + documentText + QuestionLabel + question + Gap + Instruction
  }

  /**
   * The layout of the prompt, whatever the inputs: the header, the document
   * label, the document, the question label, the question, a blank line and
   * the instruction, each in its place; only the two inputs add to the fixed
   * length of the template.
   */
  lemma AnswerPromptLayout(documentText: string, question: string)
    ensures var p := AnswerPrompt(documentText, question);
      && |p| == TemplateLength + |documentText| + |question|
      && p[..|Header|] == Header
      && p[|Header|..DocumentStart] == DocumentLabel
      && p[|p| - |Gap| - |Instruction|..|p| - |Instruction|] == Gap
      && p[|p| - |Instruction|..] == Instruction
      && p[DocumentStart..DocumentStart + |documentText|] == documentText
      && p[DocumentStart + |documentText|..DocumentStart + |documentText| + |QuestionLabel|] == QuestionLabel
      && p[DocumentStart + |documentText| + |QuestionLabel|..|p| - |Gap| - |Instruction|] == question
  {
    SevenPieces(Header, DocumentLabel, documentText, QuestionLabel, question, Gap, Instruction);
  }

  /** Given the question, the prompt determines the document. */
  lemma AnswerPromptDeterminesDocument(d1: string, d2: string, question: string)
    requires AnswerPrompt(d1, question) == AnswerPrompt(d2, question)
    ensures d1 == d2
  {
    var p := AnswerPrompt(d1, question);
    AnswerPromptLayout(d1, question);
    AnswerPromptLayout(d2, question);
    assert |d1| == |d2|;
    assert d1 == p[DocumentStart..DocumentStart + |d1|] == d2;
  }

  /** Given the document, the prompt determines the question. */
  lemma AnswerPromptDeterminesQuestion(documentText: string, q1: string, q2: string)
    requires AnswerPrompt(documentText, q1) == AnswerPrompt(documentText, q2)
    ensures q1 == q2
  {
    var p := AnswerPrompt(documentText, q1);
    AnswerPromptLayout(documentText, q1);
    AnswerPromptLayout(documentText, q2);
    var start := DocumentStart + |documentText| + |QuestionLabel|;
    assert |q1| == |q2|;
    assert q1 == p[start..|p| - |Gap| - |Instruction|] == q2;
  }

  /**
   * Without escaping, the label that separates document from question can be
   * moved across the boundary: a document ending in "question label + b"
   * asked `c` gives the same prompt as the shorter document asked
   * "b + question label + c".
   */
  lemma AnswerPromptShift(a: string, b: string, c: string)
    ensures AnswerPrompt(a + QuestionLabel + b, c) == AnswerPrompt(a, b + QuestionLabel + c)
  {
    RegroupAround(Header, DocumentLabel, a, QuestionLabel, b, c, Gap, Instruction);
  }

  /** Associativity of concatenation, on the shape the shift needs. */
  lemma RegroupAround<T>(h: seq<T>, dl: seq<T>, a: seq<T>, l: seq<T>, b: seq<T>, c: seq<T>, g: seq<T>, i: seq<T>)
    ensures h + dl + (a + l + b) + l + c + g + i == h + dl + a + l + (b + l + c) + g + i
  {
  }

  /**
   * Hence two different (document, question) pairs can produce one prompt: the
   * model cannot tell where the document ends.
   */
  lemma AnswerPromptIsAmbiguous()
    ensures exists d1: string, q1: string, d2: string, q2: string ::
      d1 != d2 && q1 != q2 && AnswerPrompt(d1, q1) == AnswerPrompt(d2, q2)
  {
    var a, b, c := "a", "b", "c";
    AnswerPromptShift(a, b, c);
    var d1, q1 := a + QuestionLabel + b, c;
    var d2, q2 := a, b + QuestionLabel + c;
    assert d1 != d2 by { assert |d1| != |d2|; }
    assert q1 != q2 by { assert |q1| != |q2|; }
    assert AnswerPrompt(d1, q1) == AnswerPrompt(d2, q2);
  }

  /**
   * `answerQuestionsFromDocument`: the model sees exactly the prompt built from
   * the input; its text comes back unchanged as `answer`, and its failure
   * propagates unchanged (the flow does not catch it).
   */
  function AnswerQuestionsFromDocument(input: AnswerInput, llm: Oracle): (r: Result<AnswerOutput, string>)
    ensures var reply := llm(AnswerPrompt(input.documentText, input.question));
      && (r.Ok? <==> reply.Ok?)
      && (r.Ok? ==> r.value.answer == reply.value)
      && (r.Err? ==> r.error == reply.error)
  {
    match llm(AnswerPrompt(input.documentText, input.question))
    case Ok(text) => Ok(AnswerOutput(text))
    case Err(e) => Err(e)
  }
}
