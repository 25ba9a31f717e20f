/**
 * The hosted language model reached through `model.generateContent(prompt)`.
 * It is an opaque oracle: a prompt goes in, and either generated text or an
 * error of the service's own shape comes out.
 */
module Llm {
  import opened Wrappers

  /** `Ok(text)` is `response.text()`; `Err(e)` is whatever the call threw. */
  type Oracle = string -> Result<string, string>
}
