/**
 * `call_gemini`: flatten a chat message list into one prompt, ask the
 * generative model, and wrap its text in an OpenAI-shaped response with a
 * single choice.
 */
module Gemini {
  import opened Wrappers
  import Text

  const MODEL_NAME := "models/gemini-2.5-flash"
  const DEFAULT_TEMPERATURE: real := 0.0
  const PROMPT_SEPARATOR := "\n\n"

  /** A chat message: `{"role": role, "content": content}`. */
  datatype Message = Message(role: string, content: string)

  /** The adapter classes: `resp.choices[i].message.content`. */
  datatype Msg = Msg(content: string)
  datatype Choice = Choice(message: Msg)
  datatype Response = Response(choices: seq<Choice>)

  /**
   * `genai.GenerativeModel(model).generate_content(prompt, temperature)`, left
   * opaque: the text of the reply, or `None` when the reply has no `text`.
   */
  type GenerativeModel = (string, string, real) -> Option<string>

  /** `getattr(resp, "text", "")`. */
  function TextOrEmpty(text: Option<string>): string
  {
    match text
    case Some(t) => t
    case None => ""
  }

  /** `[m["content"] for m in messages]`. */
  function Contents(messages: seq<Message>): seq<string>
  {
    seq(|messages|, i requires 0 <= i < |messages| => messages[i].content)
  }

  /** `"\n\n".join(m["content"] for m in messages)`. */
  function Prompt(messages: seq<Message>): string
  {
    Text.Join(PROMPT_SEPARATOR, Contents(messages))
  }

  /** `call_gemini(messages, model, temperature)`. */
  function CallGemini(
    messages: seq<Message>,
    generate: GenerativeModel,
    model: string := MODEL_NAME,
    temperature: real := DEFAULT_TEMPERATURE): (r: Response)
    ensures |r.choices| == 1
    ensures generate(model, Prompt(messages), temperature).Some? ==>
      r.choices[0].message.content == generate(model, Prompt(messages), temperature).value
    ensures generate(model, Prompt(messages), temperature).None? ==>
      r.choices[0].message.content == ""
  {
    var text := generate(model, Prompt(messages), temperature);
    Response([Choice(Msg(TextOrEmpty(text)))])
  }

  /**
   * The prompt, message by message: nothing for no messages, the lone content
   * for one, and otherwise the first content, a blank line, and the prompt of
   * the rest.
   */
  lemma PromptUnfolds(messages: seq<Message>)
    ensures messages == [] ==> Prompt(messages) == ""
    ensures |messages| == 1 ==> Prompt(messages) == messages[0].content
    ensures |messages| >= 2 ==>
      Prompt(messages) == messages[0].content + PROMPT_SEPARATOR + Prompt(messages[1..])
  {
    if messages != [] {
      assert Contents(messages)[1..] == Contents(messages[1..]);
    }
  }

  /** Roles never reach the model: messages with the same contents give the same prompt. */
  lemma PromptIgnoresRoles(
    a: seq<Message>, b: seq<Message>, generate: GenerativeModel, model: string, temperature: real)
    requires |a| == |b|
    requires forall i :: 0 <= i < |a| ==> a[i].content == b[i].content
    ensures Prompt(a) == Prompt(b)
    ensures CallGemini(a, generate, model, temperature) == CallGemini(b, generate, model, temperature)
  {
    assert Contents(a) == Contents(b);
  }

  /**
   * Every content appears in the prompt, in list order: content `k` begins
   * at `Text.Offset`, and is followed by a blank line unless it is the last.
   */
  lemma PromptPlacesContent(messages: seq<Message>, k: nat)
    requires k < |messages|
    ensures var p := Prompt(messages); var o := Text.Offset(PROMPT_SEPARATOR, Contents(messages), k);
      && o + |messages[k].content| <= |p|
      && p[o..][..|messages[k].content|] == messages[k].content
      && (k + 1 < |messages| ==>
            o + |messages[k].content| + 2 <= |p| && p[o + |messages[k].content|..][..2] == "\n\n")
  {
    Text.JoinPlacesPart(PROMPT_SEPARATOR, Contents(messages), k);
  }

  /** An empty message list gives an empty prompt and still exactly one choice. */
  lemma CallGeminiOnNoMessages(generate: GenerativeModel, model: string, temperature: real)
    ensures Prompt([]) == ""
    ensures var r := CallGemini([], generate, model, temperature);
      |r.choices| == 1 && r.choices[0].message.content == TextOrEmpty(generate(model, "", temperature))
  {
  }
}
