/** The guideline-retrieval tool (`ask_pdf_guidelines` in
    src/agent_graph/pdf_rag_tool.py): renders the retrieved chunks with
    their source file, joins them into the context handed to the language
    model, returns a fixed message when nothing is retrieved, and turns every
    exception into an answer string.

    The vector store, the embeddings and the answering chain are oracles
    held in a `RagBackend` value.
 */
module PdfRagTool {
  import opened Outcomes
  import opened Text
  import opened Llm
  import opened Seqs

  /** A retrieved chunk: its page text and its metadata. */
  datatype Doc = Doc(pageContent: string, metadata: map<string, string>)

  const NoMatchMessage: string := "No matching content found."
  const PdfErrorPrefix: string := "Error querying PDF database: "
  const UnknownSource: string := "Unknown"
  const ChunkSeparator: string := "\n\n"

  /** `doc.metadata.get('source_pdf', 'Unknown')`. */
  function SourceOf(d: Doc): string {
    if "source_pdf" in d.metadata then d.metadata["source_pdf"] else UnknownSource
  }

  /** The line naming a chunk's source file. */
  function SourceLine(source: string): string {
    "\n(Source: " + source + ")"
  }

  /** One chunk as it appears in the context. */
  function RenderDoc(d: Doc): string {
    Strip(d.pageContent) + SourceLine(SourceOf(d))
  }

  /** The rendered chunks, in retrieval order. */
  function RenderDocs(docs: seq<Doc>): seq<string> {
    Map(docs, RenderDoc)
  }

  /** The context text: the rendered chunks joined by a blank line, in
      retrieval order. */
  function JoinDocs(docs: seq<Doc>): string {
    Join(RenderDocs(docs), ChunkSeparator)
  }

  /** The collaborators of the retrieval tool. */
  datatype RagBackend = RagBackend(
    /** Creating the Pinecone client, index, embeddings and vector store. */
    connect: Outcome<()>,
    /** `similarity_search(question, k)`. */
    search: (string, nat) -> Outcome<seq<Doc>>,
    /** The answering chain, given the context text and the question. */
    answer: (string, string) -> Outcome<string>)

  /** The body of the tool's `try` block. The `if not llm` test after
      `get_llm` never fires: `get_llm` returns a client object or raises. */
  function PdfPipeline(modelName: string, question: string, k: nat, backend: RagBackend): Outcome<string> {
    var _ :- GetLlm(modelName);
    var _ :- backend.connect;
    var docs :- backend.search(question, k);
    if |docs| == 0 then Ok(NoMatchMessage)
    else backend.answer(JoinDocs(docs), question)
  }

  /** `ask_pdf_guidelines`: never raises. */
  function AskPdfGuidelines(modelName: string, question: string, k: nat, backend: RagBackend): string {
    match PdfPipeline(modelName, question, k, backend)
    case Ok(answer) => answer
    case Raised(e) => PdfErrorPrefix + e
  }

  /** A text followed by a line splits back into the two. */
  lemma TextThenLine(text: string, line: string)
    ensures StartsWith(text + line, text)
    ensures (text + line)[|text|..] == line
  {
    assert (text + line)[..|text|] == text;
  }

  /** A chunk is its page text, stripped, followed by the line naming its
      `source_pdf`, or "Unknown" when the metadata has none. */
  lemma RenderDocParts(d: Doc)
    ensures StartsWith(RenderDoc(d), Strip(d.pageContent))
    ensures RenderDoc(d)[|Strip(d.pageContent)|..] == SourceLine(SourceOf(d))
    ensures "source_pdf" in d.metadata ==> SourceOf(d) == d.metadata["source_pdf"]
    ensures "source_pdf" !in d.metadata ==> SourceOf(d) == UnknownSource
  {
    TextThenLine(Strip(d.pageContent), SourceLine(SourceOf(d)));
  }

  /** The context grows by one separator and one rendered chunk per
      retrieved chunk, in retrieval order. */
  lemma {:induction false} JoinDocsAppend(docs: seq<Doc>, d: Doc)
    ensures |docs| == 0 ==> JoinDocs(docs + [d]) == RenderDoc(d)
    ensures |docs| > 0 ==> JoinDocs(docs + [d]) == JoinDocs(docs) + ChunkSeparator + RenderDoc(d)
  {
    MapAppend(docs, d, RenderDoc);
    if |docs| == 0 {
      assert RenderDocs(docs) + [RenderDoc(d)] == [RenderDoc(d)];
    } else {
      JoinAppend(RenderDocs(docs), RenderDoc(d), ChunkSeparator);
    }
  }

  /** What the tool answers: the fixed message for an empty retrieval, the
      chain's answer over the joined chunks otherwise, and the error string
      for whatever was raised, an unsupported model name included. */
  lemma AskPdfGuidelinesOutcomes(modelName: string, question: string, k: nat, backend: RagBackend)
    ensures var r := AskPdfGuidelines(modelName, question, k, backend);
      && (GetLlm(modelName).Raised? ==> r == PdfErrorPrefix + UnsupportedPrefix + modelName)
      && (GetLlm(modelName).Ok? && backend.connect.Raised? ==> r == PdfErrorPrefix + backend.connect.error)
      && (GetLlm(modelName).Ok? && backend.connect.Ok? && backend.search(question, k) == Ok([]) ==>
            r == NoMatchMessage)
      && (GetLlm(modelName).Ok? && backend.connect.Ok? && backend.search(question, k).Ok?
          && |backend.search(question, k).value| > 0 ==>
            var context := JoinDocs(backend.search(question, k).value);
            (backend.answer(context, question).Ok? ==> r == backend.answer(context, question).value)
            && (backend.answer(context, question).Raised? ==>
                  r == PdfErrorPrefix + backend.answer(context, question).error))
      && (GetLlm(modelName).Ok? && backend.connect.Ok? && backend.search(question, k).Raised? ==>
            r == PdfErrorPrefix + backend.search(question, k).error)
  {
  }
}
