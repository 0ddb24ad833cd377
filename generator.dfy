/** The text-generation service every model-backed stage calls
    (`GeminiLLM.generate_response`, llm_models.py and result_formatter_llm.py).
    The prompts' wording is configuration: a prompt is modelled by the values
    it embeds, so that what each stage sends, and at which temperature, is visible. */
module Generator {
  import opened Wrappers

  /** The literal that `generate_response` returns instead of raising. */
  const GenerationFailed: string := "Error generating response"

  datatype Prompt =
    | InjectionPrompt(userInput: string)
    | ReasoningPrompt(query: string, schemaContext: string)
    | SqlPrompt(query: string, reasoning: string, schemaContext: string)
    | CorrectionPrompt(invalidSql: string, schemaContext: string, userQuery: string)
    | FormatErrorPrompt(userQuery: string)
    | NoDataPrompt(userQuery: string)
    | DataPrompt(userQuery: string, totalRows: int, sample: string)

  /** The remote model: the text it returned for a prompt at a temperature, or the exception it raised. */
  type Api = (Prompt, real) -> Raise<string>

  /** `generate_response`: the model's text, or the failure literal when the call raised.
      It never raises itself. */
  function GenerateResponse(api: Api, prompt: Prompt, temperature: real): (text: string)
    ensures api(prompt, temperature).Raised? ==> text == GenerationFailed
    ensures api(prompt, temperature).Ok? ==> text == api(prompt, temperature).value
  {
    match api(prompt, temperature)
    case Ok(t) => t
    case Raised(_) => GenerationFailed
  }
}
