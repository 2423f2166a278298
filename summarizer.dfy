/**
 * The bounded summariser (summarizer.py, and the identical function in
 * utils.py). Text shorter than the threshold comes back unchanged without a
 * model call; longer text is sent to the chat model with the instruction
 * chosen by content kind, and the reply is reduced to plain text.
 */
module Summarizer {
  import opened Common

  /** The three instructions the summariser knows. */
  datatype PromptKind = Readme | FileHistory | Documentation

  /**
   * Which file's instruction texts are used: the two files differ only in
   * the documentation instruction (the utils.py one also asks to keep the
   * Repository/Commit/Branch/Author/Date/Message heading).
   */
  datatype PromptSet = UtilsPrompts | SummarizerPrompts

  /**
   * A chat-model reply: the attributes it exposes by name, and what `str()`
   * renders it as.
   */
  datatype Reply = Reply(attrs: map<string, string>, repr: string)

  /** The chat model: None when the call raises. */
  type Llm = (PromptSet, PromptKind, string) -> Option<Reply>

  /** `max_length`'s default. */
  const DefaultMaxLength: int := 300

  /** `prompts.get(content_type, prompts["documentation"])` */
  function PromptFor(contentType: string): (k: PromptKind)
    ensures k == Readme <==> contentType == "readme"
    ensures k == FileHistory <==> contentType == "file_history"
  {
    if contentType == "readme" then Readme
    else if contentType == "file_history" then FileHistory
    else Documentation
  }

  /** `response.content` if the reply has it, else `str(response)`. */
  function ContentOrStr(r: Reply): (t: string)
    ensures "content" in r.attrs ==> t == r.attrs["content"]
    ensures "content" !in r.attrs ==> t == r.repr
  {
    if "content" in r.attrs then r.attrs["content"] else r.repr
  }

  /** `not text or len(text) < max_length` */
  predicate PassesThrough(text: string, maxLength: int) {
    |text| == 0 || |text| < maxLength
  }

  /** `summarize_with_llm_async(text, content_type, max_length)`; None when the model call raises. */
  function Summarize(prompts: PromptSet, text: string, contentType: string, maxLength: int, llm: Llm): (r: Option<string>)
    ensures PassesThrough(text, maxLength) ==> r == Some(text)
    ensures !PassesThrough(text, maxLength) ==>
              (r.Some? <==> llm(prompts, PromptFor(contentType), text).Some?)
    ensures !PassesThrough(text, maxLength) && r.Some? ==>
              r.value == ContentOrStr(llm(prompts, PromptFor(contentType), text).value)
  {
    if PassesThrough(text, maxLength) then Some(text)
    else match llm(prompts, PromptFor(contentType), text)
      case None => None
      case Some(reply) => Some(ContentOrStr(reply))
  }

  /** Below the threshold the model plays no part: any two models give the text back. */
  lemma ShortTextNeedsNoModel(prompts: PromptSet, text: string, contentType: string, llm1: Llm, llm2: Llm)
    requires |text| < DefaultMaxLength
    ensures Summarize(prompts, text, contentType, DefaultMaxLength, llm1) == Some(text)
    ensures Summarize(prompts, text, contentType, DefaultMaxLength, llm2) == Some(text)
  {
  }

  /** The bound is strict: text of exactly 300 characters goes to the model. */
  lemma ThresholdLengthIsSummarized(prompts: PromptSet, text: string, contentType: string, llm: Llm)
    requires |text| == DefaultMaxLength
    ensures !PassesThrough(text, DefaultMaxLength)
    ensures (Summarize(prompts, text, contentType, DefaultMaxLength, llm).None? <==>
             llm(prompts, PromptFor(contentType), text).None?)
  {
  }

  /** Any content type other than the three known ones gets the documentation instruction. */
  lemma UnknownKindFallsBack(contentType: string)
    requires contentType != "readme" && contentType != "file_history"
    ensures PromptFor(contentType) == Documentation
  {
  }
}
