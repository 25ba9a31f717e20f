/**
 * The server action `getAIResponse`, which the chat page calls: it forwards its
 * input to the question-answering flow, substitutes a fixed reply for an empty
 * answer and turns every failure into one uniform error.
 */
module Actions {
  import opened Wrappers
  import opened Llm
  import opened AnswerFlow

  /** The answer returned when the model produced no text. */
  const NoAnswerFallback: string := "I couldn't find an answer to that in the document."
  /** The message of the single error every failure becomes. */
  const FailureMessage: string := "Failed to get response from AI. Please try again later."

  /**
   * `getAIResponse(input)`. The input reaches the model unchanged, through the
   * answer prompt. A non-empty answer is returned as it is, an empty one is
   * replaced by the fallback, so the answer is never empty; any failure of the
   * flow is rethrown as `FailureMessage`, whatever the model's error was.
   */
  function GetAIResponse(input: AnswerInput, llm: Oracle): (r: Result<AnswerOutput, string>)
    ensures var reply := llm(AnswerPrompt(input.documentText, input.question));
      && (r.Err? <==> reply.Err?)
      && (r.Err? ==> r.error == FailureMessage)
      && (r.Ok? ==> r.value.answer != "")
      && (r.Ok? && reply.value != "" ==> r.value.answer == reply.value)
      && (r.Ok? && reply.value == "" ==> r.value.answer == NoAnswerFallback)
  {
    match AnswerQuestionsFromDocument(input, llm)
    case Ok(output) =>
      if output.answer == "" then Ok(AnswerOutput(NoAnswerFallback)) else Ok(output)
    case Err(_) => Err(FailureMessage)
  }

  /** Two models that both fail give the caller the very same error. */
  lemma FailureIsUniform(input: AnswerInput, llm1: Oracle, llm2: Oracle)
    requires llm1(AnswerPrompt(input.documentText, input.question)).Err?
    requires llm2(AnswerPrompt(input.documentText, input.question)).Err?
    ensures GetAIResponse(input, llm1) == GetAIResponse(input, llm2) == Err(FailureMessage)
  {
  }

  /** The answer depends on the model only through its reply to this input's prompt. */
  lemma ResponseDependsOnlyOnReply(input: AnswerInput, llm1: Oracle, llm2: Oracle)
    requires llm1(AnswerPrompt(input.documentText, input.question))
          == llm2(AnswerPrompt(input.documentText, input.question))
    ensures GetAIResponse(input, llm1) == GetAIResponse(input, llm2)
  {
  }
}
