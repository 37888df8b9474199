/** The choice of tokenizer backend by name. Loading the pretrained vocabulary and
    registering the section markers as extra tokens are library calls outside
    the model; what remains is the name check and the backend's `max_length`. */
module Tokenizer {
  import opened Wrappers
  import Flattener

  datatype Backend = GPT2 | BERT

  datatype TokenizerConfig = TokenizerConfig(backend: Backend, maxLength: nat)

  /** `_set_tokenizer`: the two known names select their backend; any other name
      raises `ValueError`. */
  function SetTokenizer(name: string): (r: Result<TokenizerConfig, string>)
    ensures r.Success? <==> name == "GPT2" || name == "BERT"
    ensures r.Success? ==> (r.value.backend == GPT2 <==> name == "GPT2")
    ensures r.Failure? ==> r.error == "Dont recognize name " + name
  {
    if name == "GPT2" then Success(TokenizerConfig(GPT2, 1024))
    else if name == "BERT" then Success(TokenizerConfig(BERT, 512))
    else Failure("Dont recognize name " + name)
  }

  /** The length filter of the flattener uses the same literal whatever the backend:
      it equals GPT-2's `max_length` and is twice BERT's, so a BERT sentence the
      backend cannot hold whole may still pass the filter. */
  lemma FilterBoundAgainstBackend(name: string)
    requires SetTokenizer(name).Success?
    ensures SetTokenizer(name).value.maxLength <= Flattener.MaxTokens
    ensures SetTokenizer(name).value.backend == GPT2 ==>
      SetTokenizer(name).value.maxLength == Flattener.MaxTokens
    ensures SetTokenizer(name).value.backend == BERT ==>
      2 * SetTokenizer(name).value.maxLength == Flattener.MaxTokens
  {
  }
}
