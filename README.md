# RAG answer pipeline — Dafny model

This project models the core of a small retrieval-augmented generation (RAG)
app (`Module_2/app.py`). The app keeps a persisted vector index of LangSmith
documentation chunks. For a question it retrieves chunks, formats them into a
system + user message pair, flattens the messages into one Gemini prompt and
returns the text of the single choice in the adapted response.

Modules:

- `Text` (text.dfy): Python's `sep.join(parts)` as `Join`, with lemmas that fix
  where each part and each separator lands (`Offset`), the joined length and
  the order of the parts.
- `Gemini` (gemini.dfy): chat messages, the OpenAI-shaped response adapter
  (`Response` / `Choice` / `Msg`), the flattened `Prompt` and `CallGemini`.
  The Gemini model itself is the function parameter
  `GenerativeModel = (model, prompt, temperature) -> Option<string>`. `None`
  stands for a reply without a `text` attribute.
- `Rag` (rag.dfy): the context block (`FormatDocs`), the two messages
  (`RagMessages`), `GenerateResponse` and `LangsmithRag`. `RagPrompt` writes
  out the prompt they produce. The echo-model lemmas give the end-to-end
  guarantees.
- `VectorIndex` (vector_index.dfy): `get_vector_db_retriever` as a method of
  class `Host`. The host holds the environment, the temp directory, the file
  system (a map from each existing path to the chunks persisted there) and
  counters for the collaborators: embedder constructions, index loads, sitemap
  fetches, embedded chunks and persists. The sitemap loader, the splitter and
  the similarity search are function parameters.
- `Wrappers` (wrappers.dfy): `Option` and `Result`.

Modelling choices where the code needs a reading:

- A credential variable that is set but empty counts as missing, because the
  code tests `not os.getenv(...)` (`VectorIndex.HasKey`).
- The persist path is computed before the credential check, but the persisted
  index file is not touched before the check.
- Only the embeddings path checks the credential. The Gemini call does not.

## Model

| member | source | states |
|---|---|---|
| `Text.JoinPlacesPart` | Module_2/app.py:94 | In `sep.join(parts)`, part `k` starts at the sum of the earlier parts' lengths plus `k` separators. Every part except the last is followed by exactly one separator. |
| `Text.JoinLength` | Module_2/app.py:94 | The joined string is exactly as long as all the parts plus `n - 1` separators. With `JoinPlacesPart`, this fixes every character. |
| `Text.JoinKeepsOrder` | Module_2/app.py:117 | Parts appear in list order. An earlier part and the separator after it end before a later part begins. |
| `Gemini.PromptUnfolds` | Module_2/app.py:94 | The prompt is the message contents joined by `"\n\n"`. No messages give `""`, one message gives its content, and otherwise it is the first content, a blank line, then the prompt of the rest. |
| `Gemini.PromptIgnoresRoles` | Module_2/app.py:94-96 | Roles are never sent. Message lists with equal contents give the same prompt, so the model is called with identical arguments. |
| `Gemini.PromptPlacesContent` | Module_2/app.py:94 | Each message's content appears in the prompt at its place in list order, followed by `"\n\n"` unless it is the last. |
| `Gemini.CallGemini` | Module_2/app.py:93-108 | The response always has exactly one choice. Its content is the model's text for the flattened prompt, with the given model and temperature, or `""` when the reply has no text. |
| `Gemini.CallGeminiOnNoMessages` | Module_2/app.py:94-108 | An empty message list gives the empty prompt and still a one-choice response. |
| `Rag.FormatDocsPlacesEach` | Module_2/app.py:117 | Each document's `page_content` sits at its place in retrieval order, with a blank line before the next one. |
| `Rag.FormatDocsEmpty` | Module_2/app.py:117 | Zero documents give an empty context block, not an error. |
| `Rag.FormatDocsContainsEach` | Module_2/app.py:117 | Every retrieved document's text occurs in the context block. |
| `Rag.RagMessagesPrompt` | Module_2/app.py:118-121 | Exactly two messages: first `system` with the fixed instruction, then `user` with `"Context: "`, the context block, `" \n\n Question: "` and the question. Their flattened prompt is the instruction, `"\n\n"`, `"Context: "`, the context block, `" \n\n Question: "` and the question. |
| `Rag.RagPromptAffixes` | Module_2/app.py:118-121 | The prompt starts with the instruction and ends with `" \n\n Question: "` followed by the literal question. |
| `Rag.RagPromptQuotesDocuments` | Module_2/app.py:117-121 | The prompt contains every retrieved document's text. |
| `Rag.RagPromptWithoutDocuments` | Module_2/app.py:117-120 | With zero documents the context is empty, and the prompt still carries the instruction and the question. No error is raised. |
| `Rag.GenerateResponse` | Module_2/app.py:116-122 | One choice, whose content is the model's text for the written-out RAG prompt. The model is `models/gemini-2.5-flash` at temperature 0. Missing text gives `""`. |
| `Rag.LangsmithRag` | Module_2/app.py:130-133 | The answer is exactly the first choice's content for the prompt built from the documents retrieved for the question. |
| `Rag.SilentModelAnswersEmpty` | Module_2/app.py:108 | A reply without text makes the answer `""`, not an error. |
| `Rag.EchoAnswerQuotesContextAndQuestion` | Module_2/app.py:130-133 | With a model that echoes its prompt, the answer starts with the instruction, contains every retrieved document's text and ends with the question. |
| `Rag.EchoSkyScenario` | Module_2/app.py:130-133 | Example: documents "The sky is blue." and "Grass is green." with an echo model. The answer to "What color is the sky?" contains both documents and the question. |
| `VectorIndex.PersistPath` | Module_2/app.py:28 | The persist path is the temp directory, a `/` unless the directory is empty or already ends in one, then `union.parquet`. It depends on nothing else. |
| `VectorIndex.Host.GetVectorDbRetriever` | Module_2/app.py:27-66 | With neither key set to a non-empty value, it fails with the exact `RuntimeError` message and leaves all state unchanged. If the persisted file exists, it loads those chunks as-is: no fetch, no embedding, no persist. Otherwise it fetches the sitemap once, splits with size 500 and overlap 0, embeds every chunk and persists once to the fixed path. Both success branches construct the embedder once and return a retriever with `lambda_mult = 0`. The file then holds exactly the retriever's chunks. |
| `VectorIndex.BootstrapTwice` | Module_2/app.py:39-66 | Bootstrapping twice with a credential gives the same retriever both times. The second run is a load from disk and embeds, fetches and persists nothing, so the index is built and persisted at most once. Afterwards the fixed path holds the retriever's chunks, and no other path has changed. |

## Left out

- The Gemini call itself (`genai.GenerativeModel`, `generate_content`) is a function parameter. Errors the provider raises (network, auth, quota, a `text` property that raises) are not modelled. In the source they propagate.
- The global `genai.configure` at import time (line 23) is not modelled. It is a configuration call into a foreign library.
- `retriever.invoke` (similarity and MMR search in `SKLearnVectorStore`), the embedding vectors and the effect of `lambda_mult` on ranking are foreign library code with floating-point maths. Search is the opaque parameter `Search`, and the model only records `lambda_mult = 0`.
- `retrieve_documents` reads the import-time singleton `retriever` (lines 69-70, 78-79). The model passes the retriever and its search to `Rag.LangsmithRag` explicitly. `nest_asyncio.apply()` is not modelled.
- `SitemapLoader` fetching and `continue_on_failure` are HTTP I/O. The loader is a parameter, and pages that fail are simply missing from its result.
- The tiktoken `RecursiveCharacterTextSplitter` is a parameter that receives chunk size 500 and overlap 0. No chunk-size bound is proved, because the tokenizer is not part of this model.
- Parquet serialisation is not modelled. The persisted file is the list of chunks it holds. Embeddings, provenance columns and malformed files are not modelled.
- The `@traceable` decorators and their metadata (`MODEL_PROVIDER`, run types) are observability only and are not modelled.
- `temperature` is a Python float. It is modelled as `real` and only passed through.
- `os.path.join` is modelled with POSIX rules. Windows path joining is not modelled.
- Two processes building the index at the same time (an unlocked race on the same file) are not modelled. The model is sequential.
- VectorIndex.Host.GetVectorDbRetriever: errors from the collaborators are not modelled, so both success branches always succeed. These are the embedder constructor (line 36), the sitemap load (line 52), the splitter (line 57), embedding in `SKLearnVectorStore.from_documents` (lines 59-64), `persist()` (line 65) and loading an existing file (lines 40-44). In the source they propagate to the caller, and a failed build leaves no complete index.
- `tempfile.gettempdir()` (line 28) writes and deletes a probe file in candidate directories on its first call. The probe file is not modelled. Its net effect on the file system is nil.
- Rag.LangsmithRag: retrieval errors are not modelled. `retriever.invoke` (line 79) embeds the query over the network and can raise; in the source the error propagates through `langsmith_rag`, while the model's search always returns a list.
- `GenerativeModel` is a mathematical function: the same model, prompt and temperature always give the same reply. Variation between calls, from sampling in `generate_content` (line 96), is not modelled.
