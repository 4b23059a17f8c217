/**
 * The RAG chain: retrieve documents for a question, format them into a
 * system + user message pair, call the model, and return the first choice.
 */
module Rag {
  import opened Wrappers
  import Text
  import opened Gemini
  import opened VectorIndex

  const RAG_SYSTEM_PROMPT :=
    "You are an assistant for question-answering tasks. \n"
    + "Use the following pieces of retrieved context to answer the latest question in the conversation. \n"
    + "If you don't know the answer, just say that you don't know. \n"
    + "Use three sentences maximum and keep the answer concise.\n"

  const DOC_SEPARATOR := "\n\n"
  const CONTEXT_LABEL := "Context: "
  const QUESTION_LABEL := " \n\n Question: "

  /** `doc.page_content for doc in documents`. */
  function PageContents(documents: seq<Document>): seq<string>
  {
    seq(|documents|, i requires 0 <= i < |documents| => documents[i].pageContent)
  }

  /** `"\n\n".join(doc.page_content for doc in documents)`: the context block. */
  function FormatDocs(documents: seq<Document>): string
  {
    Text.Join(DOC_SEPARATOR, PageContents(documents))
  }

  /** The two messages `generate_response` sends. */
  function RagMessages(question: string, documents: seq<Document>): seq<Message>
  {
    [ Message("system", RAG_SYSTEM_PROMPT),
      Message("user", CONTEXT_LABEL + FormatDocs(documents) + QUESTION_LABEL + question) ]
  }

  /** The prompt the model receives for a question and its documents, written out in full. */
  function RagPrompt(question: string, documents: seq<Document>): string
  {
    RAG_SYSTEM_PROMPT + "\n\n" + "Context: " + FormatDocs(documents) + " \n\n Question: " + question
  }

  /** No documents give an empty context block. */
  lemma FormatDocsEmpty()
    ensures FormatDocs([]) == ""
  {
  }

  /**
   * The context block holds every document's text at its place, in retrieval
   * order, with a blank line between neighbours.
   */
  lemma FormatDocsPlacesEach(documents: seq<Document>, k: nat)
    requires k < |documents|
    ensures var f := FormatDocs(documents); var o := Text.Offset(DOC_SEPARATOR, PageContents(documents), k);
      && o + |documents[k].pageContent| <= |f|
      && f[o..][..|documents[k].pageContent|] == documents[k].pageContent
      && (k + 1 < |documents| ==>
            o + |documents[k].pageContent| + 2 <= |f| && f[o + |documents[k].pageContent|..][..2] == "\n\n")
  {
    Text.JoinPlacesPart(DOC_SEPARATOR, PageContents(documents), k);
  }

  /** Every retrieved document's text occurs in the context block. */
  lemma FormatDocsContainsEach(documents: seq<Document>)
    ensures forall k :: 0 <= k < |documents| ==> Text.Contains(FormatDocs(documents), documents[k].pageContent)
  {
    forall k | 0 <= k < |documents|
      ensures Text.Contains(FormatDocs(documents), documents[k].pageContent)
    {
      Text.JoinContainsPart(DOC_SEPARATOR, PageContents(documents), k);
    }
  }

  /**
   * `generate_response` sends exactly a system message with the fixed
   * instruction and then a user message with context and question, so the
   * flattened prompt is the instruction, a blank line, and the user content.
   */
  lemma RagMessagesPrompt(question: string, documents: seq<Document>)
    ensures var ms := RagMessages(question, documents);
      && |ms| == 2
      && ms[0].role == "system" && ms[0].content == RAG_SYSTEM_PROMPT
      && ms[1].role == "user"
      && ms[1].content == CONTEXT_LABEL + FormatDocs(documents) + QUESTION_LABEL + question
    ensures Prompt(RagMessages(question, documents)) == RagPrompt(question, documents)
  {
    var ms := RagMessages(question, documents);
    PromptUnfolds(ms);
    PromptUnfolds(ms[1..]);
  }

  /** The prompt opens with the instruction and closes with the question, label included. */
  lemma RagPromptAffixes(question: string, documents: seq<Document>)
    ensures Text.StartsWith(RagPrompt(question, documents), RAG_SYSTEM_PROMPT)
    ensures Text.EndsWith(RagPrompt(question, documents), QUESTION_LABEL + question)
    ensures Text.EndsWith(RagPrompt(question, documents), question)
  {
  }

  /** The prompt quotes every retrieved document's text. */
  lemma RagPromptQuotesDocuments(question: string, documents: seq<Document>)
    ensures forall k :: 0 <= k < |documents| ==>
      Text.Contains(RagPrompt(question, documents), documents[k].pageContent)
  {
    var before := RAG_SYSTEM_PROMPT + "\n\n" + CONTEXT_LABEL;
    var after := QUESTION_LABEL + question;
    assert RagPrompt(question, documents) == before + FormatDocs(documents) + after;
    FormatDocsContainsEach(documents);
    forall k | 0 <= k < |documents|
      ensures Text.Contains(RagPrompt(question, documents), documents[k].pageContent)
    {
      Text.ContainsWithin(before, FormatDocs(documents), after, documents[k].pageContent);
    }
  }

  /** With no documents the context block is empty and the prompt still asks the question. */
  lemma RagPromptWithoutDocuments(question: string)
    ensures RagPrompt(question, []) == RAG_SYSTEM_PROMPT + "\n\n" + CONTEXT_LABEL + QUESTION_LABEL + question
  {
  }

  /** `generate_response(question, documents)`. */
  function GenerateResponse(question: string, documents: seq<Document>, generate: GenerativeModel): (r: Response)
    ensures |r.choices| == 1
    ensures r.choices[0].message.content ==
      TextOrEmpty(generate(MODEL_NAME, RagPrompt(question, documents), DEFAULT_TEMPERATURE))
  {
    RagMessagesPrompt(question, documents);
    CallGemini(RagMessages(question, documents), generate)
  }

  /** `langsmith_rag(question)`: retrieve, generate, and take the first choice's content. */
  function LangsmithRag(question: string, retriever: Retriever, search: Search, generate: GenerativeModel): (answer: string)
    ensures answer ==
      TextOrEmpty(generate(MODEL_NAME, RagPrompt(question, search(retriever, question)), DEFAULT_TEMPERATURE))
  {
    var documents := search(retriever, question);
    var response := GenerateResponse(question, documents, generate);
    response.choices[0].message.content
  }

  /** A model that answers with its prompt. */
  function Echo(model: string, prompt: string, temperature: real): Option<string>
  {
    Some(prompt)
  }

  /**
   * With a model that echoes its prompt, the answer holds the instruction,
   * every retrieved document's text, and the question at its very end.
   */
  lemma EchoAnswerQuotesContextAndQuestion(question: string, retriever: Retriever, search: Search)
    ensures var answer := LangsmithRag(question, retriever, search, Echo);
      && Text.StartsWith(answer, RAG_SYSTEM_PROMPT)
      && Text.EndsWith(answer, question)
      && Text.Contains(answer, question)
      && forall k :: 0 <= k < |search(retriever, question)| ==>
           Text.Contains(answer, search(retriever, question)[k].pageContent)
  {
    var documents := search(retriever, question);
    RagPromptAffixes(question, documents);
    RagPromptQuotesDocuments(question, documents);
    Text.EndsWithContains(RagPrompt(question, documents), question);
  }

  /** A reply without text yields the empty answer, not an error. */
  lemma SilentModelAnswersEmpty(question: string, retriever: Retriever, search: Search, generate: GenerativeModel)
    requires generate(MODEL_NAME, RagPrompt(question, search(retriever, question)), DEFAULT_TEMPERATURE).None?
    ensures LangsmithRag(question, retriever, search, generate) == ""
  {
  }

  /**
   * The two-document scenario: the echoed answer to "What color is the sky?"
   * quotes both documents and the question.
   */
  lemma EchoSkyScenario(retriever: Retriever, search: Search)
    requires |search(retriever, "What color is the sky?")| == 2
    requires search(retriever, "What color is the sky?")[0].pageContent == "The sky is blue."
    requires search(retriever, "What color is the sky?")[1].pageContent == "Grass is green."
    ensures var answer := LangsmithRag("What color is the sky?", retriever, search, Echo);
      && Text.Contains(answer, "The sky is blue.")
      && Text.Contains(answer, "Grass is green.")
      && Text.Contains(answer, "What color is the sky?")
  {
    EchoAnswerQuotesContextAndQuestion("What color is the sky?", retriever, search);
  }
}
