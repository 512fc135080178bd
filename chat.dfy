/** Chat orchestration: the prompt sent to the generative model and the response returned. */
module Chat {
  import opened Wrappers
  import opened Text
  import opened Config
  import opened Retrieval

  /** The instruction that opens every prompt. */
  const Preamble: string := "You are a helpful assistant. Use the following context to answer the question.\n\n"
  const ContextHeader: string := "Context:\n"
  const QuestionHeader: string := "\n\nQuestion: "
  const AnswerCue: string := "\nAnswer:"
  /** Chunk contents are separated by one blank line. */
  const ChunkSeparator: string := "\n\n"

  /** The retrieved chunks' contents, in order. */
  function Contents(chunks: seq<RetrievedChunk>): (r: seq<string>)
    ensures |r| == |chunks|
    ensures forall i :: 0 <= i < |chunks| ==> r[i] == chunks[i].content
  {
    seq(|chunks|, i requires 0 <= i < |chunks| => chunks[i].content)
  }

  /** The context block: every chunk's content, separated by blank lines. */
  function Context(chunks: seq<RetrievedChunk>): string
  {
    Join(ChunkSeparator, Contents(chunks))
  }

  /** `build_prompt`: instructions, then the context, then the question and the cue for the answer. */
  function BuildPrompt(query: string, chunks: seq<RetrievedChunk>): string
  {
    Preamble + ContextHeader + Context(chunks) + QuestionHeader + query + AnswerCue
  }

  /**
   * The prompt's layout: it opens with the instructions and the context header, closes with the
   * question header, the query and the answer cue, and the context fills exactly the space between.
   */
  lemma {:induction false} PromptLayout(query: string, chunks: seq<RetrievedChunk>)
    ensures var p := BuildPrompt(query, chunks);
      var start := |Preamble| + |ContextHeader|;
      var stop := |p| - |AnswerCue| - |query| - |QuestionHeader|;
      && start <= stop
      && p[..start] == Preamble + ContextHeader
      && p[start..stop] == Context(chunks)
      && p[stop .. stop + |QuestionHeader|] == QuestionHeader
      && p[stop + |QuestionHeader| .. |p| - |AnswerCue|] == query
      && p[|p| - |AnswerCue|..] == AnswerCue
  {
    var p := BuildPrompt(query, chunks);
    var a := Preamble + ContextHeader;
    var c := Context(chunks);
    var b := QuestionHeader + query + AnswerCue;
    assert p == a + c + b;
    assert p[..|a|] == a;
    assert p[|a| .. |a| + |c|] == c;
    assert p[|a| + |c|..] == b;
    assert b[..|QuestionHeader|] == QuestionHeader;
    assert b[|QuestionHeader| .. |b| - |AnswerCue|] == query;
    assert b[|b| - |AnswerCue|..] == AnswerCue;
  }

  /** The context sits right after the instructions and the context header. */
  lemma ContextInPrompt(query: string, chunks: seq<RetrievedChunk>)
    ensures |Preamble| + |ContextHeader| + |Context(chunks)| <= |BuildPrompt(query, chunks)|
    ensures BuildPrompt(query, chunks)[|Preamble| + |ContextHeader| .. |Preamble| + |ContextHeader| + |Context(chunks)|]
         == Context(chunks)
  {
    var a := Preamble + ContextHeader;
    var c := Context(chunks);
    assert BuildPrompt(query, chunks) == a + c + (QuestionHeader + query + AnswerCue);
  }

  /**
   * Every chunk's content appears in the prompt, in input order: chunk `k` starts at the context's
   * start plus the lengths of the chunks before it and their separators, and a blank line
   * separates it from the next chunk.
   */
  lemma {:induction false} ChunkInPrompt(query: string, chunks: seq<RetrievedChunk>, k: nat)
    requires k < |chunks|
    ensures var p := BuildPrompt(query, chunks);
      var o := |Preamble| + |ContextHeader| + Offset(ChunkSeparator, Contents(chunks), k);
      var n := |chunks[k].content|;
      && o + n <= |p|
      && p[o .. o + n] == chunks[k].content
      && (k + 1 < |chunks| ==> o + n + 2 <= |p| && p[o + n .. o + n + 2] == ChunkSeparator)
  {
    ContextInPrompt(query, chunks);
    JoinAt(BuildPrompt(query, chunks), |Preamble| + |ContextHeader|, ChunkSeparator, Contents(chunks), k);
  }

  /** Without chunks the context is empty, and the question follows the header directly. */
  lemma EmptyContext(query: string)
    ensures BuildPrompt(query, []) ==
      "You are a helpful assistant. Use the following context to answer the question.\n\n" +
      "Context:\n\n\nQuestion: " + query + "\nAnswer:"
  {
  }

  /** Only the chunks' contents reach the prompt: uris and scores do not change it. */
  lemma PromptIgnoresUriAndScore(query: string, a: seq<RetrievedChunk>, b: seq<RetrievedChunk>)
    requires |a| == |b|
    requires forall i :: 0 <= i < |a| ==> a[i].content == b[i].content
    ensures BuildPrompt(query, a) == BuildPrompt(query, b)
  {
    assert Contents(a) == Contents(b);
  }

  /** The answer together with the chunks it was given. */
  datatype ChatResponse = ChatResponse(answer: string, sources: seq<RetrievedChunk>)

  /**
   * The generative model, called with the configured model name and a prompt: the text of its
   * response, or None when the response carries no text.
   */
  type Generator = (string, string) -> Option<string>

  /** `generate_answer`: ask the configured chat model with the built prompt. */
  function GenerateAnswer(config: AppConfig, query: string, chunks: seq<RetrievedChunk>, generate: Generator): (r: ChatResponse)
    ensures r.sources == chunks
    ensures r.answer == "" <==>
      generate(config.chatModel, BuildPrompt(query, chunks)) in {None, Some("")}
    ensures r.answer != "" ==> generate(config.chatModel, BuildPrompt(query, chunks)) == Some(r.answer)
  {
    var text := generate(config.chatModel, BuildPrompt(query, chunks));
    ChatResponse(if text.Some? then text.value else "", chunks)
  }

  /** A prompt with one chunk holds its content and the question. */
  lemma PromptExample()
    ensures var p := BuildPrompt("Question?", [RetrievedChunk("file.txt", "Hello", 1.0)]);
      p[|Preamble| + |ContextHeader| .. |Preamble| + |ContextHeader| + 5] == "Hello"
      && p[|p| - |AnswerCue| - 9 .. |p| - |AnswerCue|] == "Question?"
  {
    var chunks := [RetrievedChunk("file.txt", "Hello", 1.0)];
    ChunkInPrompt("Question?", chunks, 0);
    PromptLayout("Question?", chunks);
  }
}
