# RAG chatbot core, modelled in Dafny

The RAG chatbot answers questions about a set of documents.

1. Indexing. Each document is cut into fixed-size chunks of 1500 characters. Each chunk is embedded
   with a text-embedding model. The entries are written to a JSONL vector index, one JSON record per
   line, each with a uri `path#chunk=n`, the chunk text and its vector.
2. Retrieval. The question is embedded, and every indexed chunk is scored by cosine similarity. The
   chunks are sorted stably by descending score, and the best `top_k` are kept.
3. Answering. A prompt is assembled from a fixed instruction, the retrieved chunks and the question.
   It is sent to a Gemini chat model, and the model's text and the chunks used come back together.

The project models the deterministic core of these steps:

- `Embeddings`: `chunk_text`, the embedder interface, and taking element 0 of a one-text batch.
- `Indexing`: `IndexEntry` and `VectorIndex`. `save` and `load` are modelled over a payload string,
  with the line framing written out and the per-record JSON codec left abstract. Also the entry
  assembly of `build_vector_index`.
- `Retrieval`: the zero-norm guard of the cosine similarity, and the stable in-place sort by
  descending score. Also `retrieve_context`, including its empty-index short cut and Python's
  `[:top_k]` slice.
- `Chat`: `build_prompt`, and the result shaping of `generate_answer`.
- `Config`: `AppConfig`, `validate` and `from_env`. The environment is given as a map.
- `Gcp`: `get_endpoint_resource_id`, over an exact model of `str.split("/")`.
- `Text`: `sep.join(...)`. `Wrappers`: `Option` and `Result`.

Foreign services become parameters:

- the embedding model is a function from a batch of texts to vectors, or `None` on failure;
- the chat model is a function from a model name and a prompt to the response text;
- the JSON record codec is an `encode`/`decode` pair of functions;
- the arithmetic behind the cosine similarity (dot product, norms) is a pair of functions onto `real`.

Round-trip lemmas about the index assume a lawful codec (`Indexing.LawfulCodec`):

- decoding an encoded record gives it back;
- an encoded record holds no newline, since `json.dumps` escapes them;
- the empty line does not decode.

Blank lines in the index file are not skipped: `load` passes every line to `json.loads`, which
raises on a blank line, so the whole load fails (`Indexing.LoadedLines`).

## Model

| member | source | states |
|---|---|---|
| Embeddings.ChunkText | rag_chatbot/embeddings.py:27-30 | a chunk size of 0 is an error (`range` raises); a negative size yields no chunks; a positive size yields the fixed-size slices |
| Embeddings.ChunksConcat | rag_chatbot/embeddings.py:29-30 | concatenating the chunks reproduces the text exactly |
| Embeddings.ChunkLengths | rag_chatbot/embeddings.py:29-30 | every chunk but the last has exactly `chunk_size` characters; the last has 1 to `chunk_size` |
| Embeddings.ChunkCount | rag_chatbot/embeddings.py:29 | the number of chunks is ceil(len(text)/chunk_size); there are none exactly when the text is empty |
| Embeddings.ChunkAt | rag_chatbot/embeddings.py:29-30 | chunk i is `text[i*size : min((i+1)*size, len(text))]`: left to right, no overlap, no gap |
| Embeddings.ChunkTextExample | tests/test_indexing.py:10-12 | `chunk_text("abcd", chunk_size=2)` yields `["ab", "cd"]` |
| Embeddings.EmbedOne | rag_chatbot/indexing.py:54 | embedding one text succeeds exactly when the provider answers with at least one vector; the result is vector 0; a provider failure and an empty answer are distinct errors |
| Indexing.FrameSnoc | rag_chatbot/indexing.py:27-28 | saving one more entry appends its record and a newline to the payload |
| Indexing.Lines | rag_chatbot/indexing.py:36 | iterating a file's lines yields lines with no newline inside |
| Indexing.LinesJoin | rag_chatbot/indexing.py:36 | the lines rejoined with newlines give back the whole file, less its final newline if it has one: an unterminated last line is kept and nothing is lost or added |
| Indexing.LinesCons | rag_chatbot/indexing.py:36 | a newline-terminated first line is split off as one line |
| Indexing.FrameLines | rag_chatbot/indexing.py:25-28 | a saved payload holds exactly one line per entry, line i being entry i's record, and exactly one newline per entry |
| Indexing.ParseSnoc | rag_chatbot/indexing.py:36-38 | one more line either appends its decoded entry or ends the load with that line's error |
| Indexing.ParseAbort | rag_chatbot/indexing.py:37 | once a line fails to parse, later lines do not change the outcome |
| Indexing.ParseLinesOk | rag_chatbot/indexing.py:35-39 | parsing succeeds exactly when every line decodes; then entry i is line i's record |
| Indexing.ParseFrame | rag_chatbot/indexing.py:25-39 | parsing the lines of a saved payload gives back the saved entries in order |
| Indexing.VectorIndex.Save | rag_chatbot/indexing.py:25-28 | the loop writes the framed payload, one record and newline per entry in entry order; the payload is empty exactly when the index is |
| Indexing.VectorIndex.Load | rag_chatbot/indexing.py:30-39 | the loop yields the specified load result; a missing file gives an empty index |
| Indexing.LoadAfterSave | tests/test_indexing.py:18-33 | loading what `save` wrote gives back the same index, entries in the same order |
| Indexing.LoadedLines | rag_chatbot/indexing.py:35-39 | a load succeeds exactly when every line decodes; then it holds one entry per line, in line order; a blank line fails the load |
| Indexing.DigitNumeral | rag_chatbot/indexing.py:55 | digit d prints as the d-th of the numerals `0` to `9` |
| Indexing.NatToString | rag_chatbot/indexing.py:55 | the decimal form of a chunk number is non-empty, all digits, and one character exactly below 10 |
| Indexing.NatToStringValue | rag_chatbot/indexing.py:55 | the decimal form of a chunk number spells that number, most significant digit first, with no leading zero except for 0 itself |
| Indexing.NatToStringInjective | rag_chatbot/indexing.py:55 | distinct chunk numbers have distinct decimal forms |
| Indexing.ChunkUriPath | rag_chatbot/indexing.py:55 | a chunk uri starts with the path, its last `#` follows the path, and the chunk number's digits end it |
| Indexing.ChunkUriInjective | rag_chatbot/indexing.py:55 | two chunk uris are equal exactly when their paths and chunk numbers are |
| Indexing.PlanAppend | rag_chatbot/indexing.py:51-53 | the chunks of two document lists are those of the first, then those of the second |
| Indexing.EmbedAllAbort | rag_chatbot/indexing.py:54 | after an embedding failure, later chunks do not change the outcome |
| Indexing.EmbedAllSnoc | rag_chatbot/indexing.py:54-56 | one more chunk either appends its entry or ends the build with its embedding error |
| Indexing.BuildStep | rag_chatbot/indexing.py:53-56 | one inner-loop step: an embedding failure is the whole build's result, and a success appends the entry `path#chunk=n` |
| Indexing.BuildVectorIndex | rag_chatbot/indexing.py:42-61 | the nested loops build the specified index; the payload saved is that index's framing; nothing is saved when embedding fails |
| Indexing.EmbedAllSpec | rag_chatbot/indexing.py:53-56 | assembly succeeds exactly when every chunk embeds; entry i is chunk i's uri, content and vector; on failure the error is that of the first chunk that failed |
| Indexing.DocPlanSpec | rag_chatbot/indexing.py:53-55 | a document gives ceil(len/1500) chunks; chunk n has uri `path#chunk=n` and is the n-th 1500-character slice; the chunks concatenate to the text |
| Indexing.PlanUriOrigin | rag_chatbot/indexing.py:51-55 | every planned uri is `path#chunk=n` for one of the documents |
| Indexing.PlanUrisUnique | rag_chatbot/indexing.py:51-55 | documents with distinct paths give entries with pairwise distinct uris |
| Indexing.BuiltSpec | rag_chatbot/indexing.py:49-58 | the index has one entry per chunk, documents in input order and chunks in order within each; each entry carries its chunk verbatim and the chunk's vector |
| Indexing.HelloWorldIndex | rag_chatbot/indexing.py:51-58 | a one-document corpus "hello world" gives the single entry `path#chunk=0` with its vector |
| Retrieval.Cosine | rag_chatbot/retrieval.py:22-28 | the similarity is 0.0 when either norm is zero, and otherwise the dot product divided by the product of the norms |
| Retrieval.ZeroNormScoresZero | rag_chatbot/retrieval.py:26-27 | an entry whose vector, or the query's, has norm zero is scored 0.0 and keeps its uri and content |
| Retrieval.Rank | rag_chatbot/retrieval.py:51 | the insertion point of a chunk comes after every chunk scoring at least as much, before the first that scores less |
| Retrieval.InsertAt | rag_chatbot/retrieval.py:51 | inserting places the chunk at its rank and shifts the rest by one |
| Retrieval.InsertDescending | rag_chatbot/retrieval.py:51 | inserting into a descending list keeps it descending |
| Retrieval.InsertMultiset | rag_chatbot/retrieval.py:51 | inserting adds exactly that chunk |
| Retrieval.InsertStable | rag_chatbot/retrieval.py:51 | inserting puts the chunk after every chunk with the same score |
| Retrieval.SortByScoreSpec | rag_chatbot/retrieval.py:51 | the sort gives a descending permutation of its input, and chunks with equal scores keep their input order |
| Retrieval.InsertInPlace | rag_chatbot/retrieval.py:51 | swapping element i down into the sorted prefix gives the inserted prefix and leaves the rest alone |
| Retrieval.SortInPlace | rag_chatbot/retrieval.py:51 | sorting the array in place leaves the stable descending order |
| Retrieval.SliceEnd | rag_chatbot/retrieval.py:52 | where `[:top_k]` stops, for any sign of `top_k`, never past the end |
| Retrieval.RetrieveContext | rag_chatbot/retrieval.py:31-52 | load, short cut on an empty index, embed the query, score, sort in place and slice all yield the specified result |
| Retrieval.DefaultRetrieval | rag_chatbot/retrieval.py:31-52 | called without `top_k` (default 5), a successful retrieval returns min(5, index size) chunks |
| Retrieval.EmptyIndexSkipsEmbedder | rag_chatbot/retrieval.py:37-38 | an empty index returns no chunks, whatever the embedder does, even when it always fails |
| Retrieval.RankedLength | rag_chatbot/retrieval.py:43-52 | ranking fails exactly when the query cannot be embedded; otherwise it returns min(top_k, entries) chunks for top_k >= 0 |
| Retrieval.RankedTopK | rag_chatbot/retrieval.py:51-52 | the results are in descending score order, are drawn from the scored entries, and score at least as much as every entry left out |
| Retrieval.RankedFromEntries | rag_chatbot/retrieval.py:43-50 | every returned chunk is one index entry's uri and content, with that entry's similarity to the query |
| Retrieval.PrefixDominates | rag_chatbot/retrieval.py:51-52 | a prefix of a descending list outscores everything after it |
| Retrieval.RankedStable | rag_chatbot/retrieval.py:51 | among results with equal scores, the index order is kept, as a prefix of that score's entries |
| Retrieval.TopOneExample | rag_chatbot/retrieval.py:31-52 | with top_k 1, the entry scoring 1.0 is returned and the one scoring 0.0 is not |
| Text.JoinLayout | rag_chatbot/chat.py:20 | in `sep.join(xs)`, piece k sits at the sum of the earlier pieces' and separators' lengths; a separator follows every piece but the last, and the last ends the string |
| Text.JoinAt | rag_chatbot/chat.py:20 | wherever a join occurs inside a longer string, piece k and the separator after it occur at the same relative positions |
| Text.JoinSnoc | rag_chatbot/chat.py:20 | joining one more piece appends a separator and the piece |
| Chat.Contents | rag_chatbot/chat.py:20 | the context pieces are the chunks' contents, one per chunk, in order |
| Chat.PromptLayout | rag_chatbot/chat.py:19-24 | the prompt is the instruction, `Context:\n`, the joined contents, `\n\nQuestion: `, the query and `\nAnswer:`, each at its exact position |
| Chat.ContextInPrompt | rag_chatbot/chat.py:22-23 | the joined contents start right after the instruction and `Context:\n` |
| Chat.ChunkInPrompt | rag_chatbot/chat.py:20-23 | each chunk's content occurs in the prompt at its computed position, in input order, followed by exactly `\n\n` unless it is the last |
| Chat.EmptyContext | rag_chatbot/chat.py:20-23 | with no chunks the context section is empty |
| Chat.PromptIgnoresUriAndScore | rag_chatbot/chat.py:20 | chunks with the same contents give the same prompt, whatever their uris and scores |
| Chat.GenerateAnswer | rag_chatbot/chat.py:33-45 | the sources are the input chunks unchanged; the configured chat model is asked the built prompt; the answer is its text, or "" when it has none |
| Chat.PromptExample | tests/test_chat.py:10-14 | the prompt for one chunk "Hello" and the question "Question?" contains both |
| Config.AppConfig.Validate | rag_chatbot/config.py:33-40 | the list names `GCP_PROJECT_ID` exactly when the project id is empty and `DOCUMENT_BUCKET` exactly when the bucket is empty; it names nothing else and nothing twice, and the project id comes first |
| Config.ReportShape | rag_chatbot/config.py:35-40 | a correct report is the project id's name if missing, followed by the bucket's if missing |
| Config.ReportDetermined | rag_chatbot/config.py:33-40 | the report depends only on the project id and the bucket; it is empty exactly when both are set, and it holds at most two names |
| Config.FromEnv | rag_chatbot/config.py:23-31 | each setting is its environment variable when set, and otherwise its default (`us-central1`, `gemini-2.5-pro`, `vector_index.jsonl`, or empty) |
| Config.FromEnvReport | rag_chatbot/config.py:23-40 | a setting loaded from the environment is reported missing exactly when its variable is unset or empty; an empty environment reports both |
| Gcp.Split | rag_chatbot/gcp.py:19 | `split("/")` always yields at least one piece, so the `if not parts` branch is unreachable |
| Gcp.SplitJoin | rag_chatbot/gcp.py:19 | no piece holds a '/', and joining the pieces with '/' gives back the name |
| Gcp.SplitLast | rag_chatbot/gcp.py:19-22 | the last piece is the name's longest suffix without '/' |
| Gcp.GetEndpointResourceId | rag_chatbot/gcp.py:17-22 | the result is None exactly when the name is empty or ends with '/'; otherwise it is the non-empty text after the last '/', with no '/' in it |
| Gcp.BareNameIsId | rag_chatbot/gcp.py:19-22 | a non-empty name without '/' is returned whole |
| Gcp.EndpointExample | rag_chatbot/gcp.py:17-22 | `projects/p/locations/us/endpoints/456` gives `456` |

## Left out

- File I/O: path existence, `open`, `mkdir`, reading with `errors="ignore"`, and UTF-8 encoding. The index file is a payload string (`None` when the path does not exist), and documents are given as path and text.
- Universal-newline translation of `\r` and `\r\n` when reading the index: only `\n` ends a line. `json.dumps` escapes `\r`, so saved payloads are unaffected.
- JSON itself: records are encoded and decoded by an abstract codec. `json.loads` tolerates the line's trailing newline and other whitespace; the model hands the codec the line without its terminator.
- Floating point: scores are `real`, and the dot product and norms are abstract functions, so `sqrt` and rounding are not modelled.
- `VertexEmbeddingClient.embed_texts`: replaced by an embedder parameter. As written, it reads `config.embedding_model`, which `AppConfig` does not have, so it would raise; the model does not rely on that field.
- `initialize_vertex_ai` and the Gemini call in `generate_answer` (model construction, `generate_content`): the generator is a parameter that returns the response text or `None`.
- `_load_generative_model`: it only imports the SDK class.
- Chat.GenerateAnswer: does not model an exception from the model call; a failed call is not distinguished from a response without text.
- The command line interface, the HTTP API (including its overwrite guard) and the Cloud Storage upload are not part of this model.
