/**
 * The index bootstrap of the RAG app: check the embedding credential, then
 * load the persisted vector store if its file exists, otherwise build it from
 * the sitemap, persist it, and hand out a retriever over it.
 *
 * The process's environment, its temporary directory and the file system are
 * the fields of a `Host`; the sitemap loader, the splitter and the embedding
 * provider are opaque and only leave traces in the host's counters.
 */
module VectorIndex {
  import opened Wrappers
  import Text

  /** A loaded page or a chunk of one: its text and the URL it came from. */
  datatype Document = Document(pageContent: string, source: string)

  /** The vector store: which embedding model indexed which chunks, and where it persists. */
  datatype VectorStore = VectorStore(
    embeddingModel: string,
    persistPath: string,
    serializer: string,
    chunks: seq<Document>)

  /** `vectorstore.as_retriever(lambda_mult=...)`. */
  datatype Retriever = Retriever(store: VectorStore, lambdaMult: real)

  /** Similarity search of a retriever (`retriever.invoke`), left opaque. */
  type Search = (Retriever, string) -> seq<Document>

  /** Fetch every page a sitemap lists; pages that fail are skipped, so any list may come back. */
  type SitemapLoader = string -> seq<Document>

  /** Token-aware splitter, given its chunk size and chunk overlap. */
  type Splitter = (nat, nat, seq<Document>) -> seq<Document>

  const PERSIST_FILE := "union.parquet"
  const SERIALIZER := "parquet"
  const EMBEDDING_MODEL := "models/text-embedding-004"
  const SITEMAP_URL := "https://docs.smith.langchain.com/sitemap.xml"
  const CHUNK_SIZE: nat := 500
  const CHUNK_OVERLAP: nat := 0
  const LAMBDA_MULT: real := 0.0
  const GOOGLE_API_KEY := "GOOGLE_API_KEY"
  const GEMINI_API_KEY := "GEMINI_API_KEY"
  const MISSING_KEY_MESSAGE :=
    "Missing API key: set GOOGLE_API_KEY or GEMINI_API_KEY to use GoogleGenerativeAIEmbeddings."

  /**
   * `os.path.join(tempDir, "union.parquet")` with POSIX rules: a separator is
   * inserted unless the directory is empty or already ends in one.
   */
  function PersistPath(tempDir: string): (path: string)
    ensures Text.StartsWith(path, tempDir)
    ensures Text.EndsWith(path, PERSIST_FILE)
    ensures |path| == |tempDir| + |PERSIST_FILE| +
      (if tempDir == [] || tempDir[|tempDir| - 1] == '/' then 0 else 1)
    ensures |path| == |tempDir| + |PERSIST_FILE| + 1 ==> path[|tempDir|] == '/'
  {
    if tempDir == [] || tempDir[|tempDir| - 1] == '/' then tempDir + PERSIST_FILE
    else tempDir + "/" + PERSIST_FILE
  }

  /** `os.getenv(name)` is truthy: the variable is set and not empty. */
  predicate HasKey(env: map<string, string>, name: string)
  {
    name in env && env[name] != ""
  }

  /** One of the two credential variables is usable. */
  predicate HasCredential(env: map<string, string>)
  {
    HasKey(env, GOOGLE_API_KEY) || HasKey(env, GEMINI_API_KEY)
  }

  /** The store `get_vector_db_retriever` builds or loads, over the given chunks. */
  function Store(tempDir: string, chunks: seq<Document>): VectorStore
  {
    VectorStore(EMBEDDING_MODEL, PersistPath(tempDir), SERIALIZER, chunks)
  }

  /**
   * The process and the world it sees. `files` maps every existing path to
   * the chunks persisted there; the counters record calls into the opaque
   * collaborators.
   */
  class Host {
    const env: map<string, string>
    const tempDir: string
    var files: map<string, seq<Document>>
    var embedderBuilds: nat
    var indexLoads: nat
    var fetched: seq<string>
    var embedded: nat
    var persists: nat

    constructor (env: map<string, string>, tempDir: string, files: map<string, seq<Document>>)
      ensures this.env == env && this.tempDir == tempDir && this.files == files
      ensures embedderBuilds == 0 && indexLoads == 0 && fetched == []
      ensures embedded == 0 && persists == 0
    {
      this.env := env;
      this.tempDir := tempDir;
      this.files := files;
      embedderBuilds, indexLoads, fetched, embedded, persists := 0, 0, [], 0, 0;
    }

    /** `get_vector_db_retriever()`. */
    method GetVectorDbRetriever(loadSitemap: SitemapLoader, split: Splitter)
      returns (r: Result<Retriever, string>)
      modifies this
      // no credential: fail before the embedder, the disk or the network is touched
      ensures !HasCredential(env) ==> r == Failure(MISSING_KEY_MESSAGE) && unchanged(this)
      ensures HasCredential(env) ==> embedderBuilds == old(embedderBuilds) + 1
      // persisted index present: loaded as it is, nothing fetched, embedded or written
      ensures HasCredential(env) && PersistPath(tempDir) in old(files) ==>
        && r == Success(Retriever(Store(tempDir, old(files)[PersistPath(tempDir)]), LAMBDA_MULT))
        && files == old(files) && indexLoads == old(indexLoads) + 1
        && fetched == old(fetched) && embedded == old(embedded) && persists == old(persists)
      // otherwise: one sitemap load, every chunk embedded, one persist to the fixed path
      ensures HasCredential(env) && PersistPath(tempDir) !in old(files) ==>
        var chunks := split(CHUNK_SIZE, CHUNK_OVERLAP, loadSitemap(SITEMAP_URL));
        && r == Success(Retriever(Store(tempDir, chunks), LAMBDA_MULT))
        && files == old(files)[PersistPath(tempDir) := chunks]
        && indexLoads == old(indexLoads) && fetched == old(fetched) + [SITEMAP_URL]
        && embedded == old(embedded) + |chunks| && persists == old(persists) + 1
      // on success the persisted file holds exactly the index the retriever searches
      ensures r.Success? ==>
        && r.value.lambdaMult == LAMBDA_MULT
        && r.value.store.embeddingModel == EMBEDDING_MODEL
        && r.value.store.persistPath == PersistPath(tempDir)
        && PersistPath(tempDir) in files
        && files[PersistPath(tempDir)] == r.value.store.chunks
    {
      var persistPath := PersistPath(tempDir);
      if !HasKey(env, GOOGLE_API_KEY) && !HasKey(env, GEMINI_API_KEY) {
        return Failure(MISSING_KEY_MESSAGE);
      }
      embedderBuilds := embedderBuilds + 1;
      if persistPath in files {
        indexLoads := indexLoads + 1;
        var store := VectorStore(EMBEDDING_MODEL, persistPath, SERIALIZER, files[persistPath]);
        return Success(Retriever(store, LAMBDA_MULT));
      }
      var docs := loadSitemap(SITEMAP_URL);
      fetched := fetched + [SITEMAP_URL];
      var docSplits := split(CHUNK_SIZE, CHUNK_OVERLAP, docs);
      embedded := embedded + |docSplits|;
      var store := VectorStore(EMBEDDING_MODEL, persistPath, SERIALIZER, docSplits);
      files := files[persistPath := store.chunks];
      persists := persists + 1;
      return Success(Retriever(store, LAMBDA_MULT));
    }
  }

  /**
   * Bootstrapping twice with the credential present hands out the same
   * retriever both times; the second run re-embeds and re-persists nothing, so
   * across both runs the index is built and persisted at most once.
   */
  method BootstrapTwice(host: Host, loadSitemap: SitemapLoader, split: Splitter)
    returns (first: Result<Retriever, string>, second: Result<Retriever, string>)
    requires HasCredential(host.env)
    modifies host
    ensures first.Success? && second == first
    ensures host.files == old(host.files)[PersistPath(host.tempDir) := first.value.store.chunks]
    ensures host.embedderBuilds == old(host.embedderBuilds) + 2
    ensures host.indexLoads == old(host.indexLoads) + (if PersistPath(host.tempDir) in old(host.files) then 2 else 1)
    ensures PersistPath(host.tempDir) in old(host.files) ==>
      && host.files == old(host.files) && host.embedded == old(host.embedded)
      && host.persists == old(host.persists) && host.fetched == old(host.fetched)
    ensures PersistPath(host.tempDir) !in old(host.files) ==>
      && host.embedded == old(host.embedded) + |split(CHUNK_SIZE, CHUNK_OVERLAP, loadSitemap(SITEMAP_URL))|
      && host.persists == old(host.persists) + 1
      && host.fetched == old(host.fetched) + [SITEMAP_URL]
  {
    first := host.GetVectorDbRetriever(loadSitemap, split);
    second := host.GetVectorDbRetriever(loadSitemap, split);
  }
}
