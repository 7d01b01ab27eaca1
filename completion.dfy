/**
 * The session configuration and the request sent to the completion service:
 * the API key read from the embedded key file and the fenced prompt.
 */
module Completion {
  import opened Wrappers
  import opened GoStrings

  /** The key and endpoint shared, read-only, by every turn of a session. */
  datatype Config = Config(apiKey: string, apiUrl: string)

  /** What reading the embedded key file can fail with. */
  datatype KeyFileError = KeyFileMissing(name: string)

  /**
   * `readAPIKey` after the file read: a failed read is passed on unchanged,
   * otherwise the key is the file's text with its surrounding white space cut off.
   */
  function ReadApiKey(content: Result<string, KeyFileError>): (r: Result<string, KeyFileError>)
    ensures content.Failure? ==> r == content
    ensures content.Success? ==> r.Success? && IsTrimOf(content.value, r.value)
    ensures r.Success? ==> NoEdgeSpace(r.value)
  {
    match content
    case Failure(e) => Failure(e)
    case Success(text) => TrimSpaceTrims(text); Success(TrimSpace(text))
  }

  /** The completion endpoint `main` configures. */
  const ApiUrl: string := "https://api.openai.com/v1/completions"

  /**
   * Start-up in `main`: an unreadable key file ends the program before any
   * turn; otherwise the session uses the trimmed key and the fixed endpoint.
   */
  function StartSession(keyFile: Result<string, KeyFileError>): (r: Result<Config, KeyFileError>)
    ensures keyFile.Failure? <==> r.Failure?
    ensures r.Failure? ==> r.error == keyFile.error
    ensures r.Success? ==> r.value.apiUrl == ApiUrl && IsTrimOf(keyFile.value, r.value.apiKey)
  {
    match ReadApiKey(keyFile)
    case Failure(e) => Failure(e)
    case Success(key) => Success(Config(key, ApiUrl))
  }

  /** A key that was read already carries no white space: reading it back gives it unchanged. */
  lemma ReadApiKeyStable(content: Result<string, KeyFileError>)
    requires ReadApiKey(content).Success?
    ensures ReadApiKey(ReadApiKey(content)) == ReadApiKey(content)
  {
    TrimSpaceIdempotent(content.value);
  }

  // ---------------------------------------------------------------------------
  // The prompt wrapper
  // ---------------------------------------------------------------------------

  /** The code fence that delimits the prompt; it is also the request's stop sequence. */
  const Fence: string := "```"

  /** What follows the prompt: a line break and the closing fence. */
  const Closing: string := "\n```"

  /** The prompt as sent: an opening fence, the prompt, a line break and a closing fence. */
  function WrapPrompt(prompt: string): (r: string)
    ensures |r| == |Fence| + |prompt| + |Closing|
    ensures r[..|Fence|] == Fence
    ensures r[|Fence|..|r| - |Closing|] == prompt
    ensures r[|r| - |Closing|..] == Closing
  {
    Fence + prompt + Closing
  }

  /** The inverse of `WrapPrompt`: the text between the fences, if `s` is fenced that way. */
  function UnwrapPrompt(s: string): (r: Option<string>)
    ensures r.Some? ==> |r.value| == |s| - |Fence| - |Closing|
  {
    if |s| >= |Fence| + |Closing| && s[..|Fence|] == Fence && s[|s| - |Closing|..] == Closing
    then Some(s[|Fence|..|s| - |Closing|])
    else None
  }

  /** Unwrapping a wrapped prompt gives the prompt back. */
  lemma UnwrapWrapPrompt(prompt: string)
    ensures UnwrapPrompt(WrapPrompt(prompt)) == Some(prompt)
  {
  }

  /** Every fenced string is the wrapping of what lies between its fences. */
  lemma WrapUnwrapPrompt(s: string)
    requires UnwrapPrompt(s).Some?
    ensures WrapPrompt(UnwrapPrompt(s).value) == s
  {
    var p := UnwrapPrompt(s).value;
    assert s == s[..|Fence|] + s[|Fence|..|s| - |Closing|] + s[|s| - |Closing|..];
  }

  /** Distinct prompts are sent as distinct request texts. */
  lemma WrapPromptInjective(p: string, q: string)
    requires WrapPrompt(p) == WrapPrompt(q)
    ensures p == q
  {
    UnwrapWrapPrompt(p);
    UnwrapWrapPrompt(q);
  }

  // ---------------------------------------------------------------------------
  // The request body
  // ---------------------------------------------------------------------------

  /** The fields of the JSON request body, with the sampling parameters as numbers. */
  datatype CompletionRequest = CompletionRequest(
    model: string,
    prompt: string,
    topP: int,
    stop: string,
    temperature: int,
    suffix: string,
    maxTokens: nat,
    presencePenalty: int,
    frequencyPenalty: int)

  /** The model every request names. */
  const Model: string := "gpt-3.5-turbo-instruct"

  /** The request body `getResponse` builds for a prompt. */
  function BuildRequest(prompt: string): (r: CompletionRequest)
    ensures UnwrapPrompt(r.prompt) == Some(prompt)
    ensures r.stop == Fence && r.suffix == Closing
    ensures r.model == Model && r.maxTokens == 1000
    ensures r.topP == 1 && r.temperature == 0 && r.presencePenalty == 0 && r.frequencyPenalty == 0
  {
    UnwrapWrapPrompt(prompt);
    CompletionRequest(Model, WrapPrompt(prompt), 1, Fence, 0, Closing, 1000, 0, 0)
  }

  /** The prompt ends with the suffix the request announces, and that suffix ends with the stop sequence. */
  lemma RequestEndsWithSuffix(prompt: string)
    ensures var r := BuildRequest(prompt);
      && |r.suffix| <= |r.prompt| && r.prompt[|r.prompt| - |r.suffix|..] == r.suffix
      && r.suffix[|r.suffix| - |r.stop|..] == r.stop
  {
  }
}
