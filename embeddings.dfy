/**
 * The chunker (`chunk_text`) and the embedding provider seen as an opaque function.
 */
module Embeddings {
  import opened Wrappers

  /** Chunk length used when no `chunk_size` is given. */
  const DefaultChunkSize: nat := 1500

  function Min(a: int, b: int): int { if a <= b then a else b }

  /**
   * The slices `text[start : start + size]` for `start` in `range(0, len(text), size)`:
   * fixed-size, left to right, the last one holding the remainder.
   */
  function Chunks(text: string, size: nat): seq<string>
    requires size > 0
    decreases |text|
  {
    if text == [] then []
    else if |text| <= size then [text]
    else [text[..size]] + Chunks(text[size..], size)
  }

  /**
   * `chunk_text(text, chunk_size=chunkSize)`: `range` raises for a zero step (None here), and a
   * negative step over `range(0, len(text))` is empty.
   */
  function ChunkText(text: string, chunkSize: int): (r: Option<seq<string>>)
    ensures r.None? <==> chunkSize == 0
    ensures chunkSize < 0 ==> r == Some([])
    ensures chunkSize > 0 ==> r == Some(Chunks(text, chunkSize))
  {
    if chunkSize == 0 then None
    else if chunkSize < 0 then Some([])
    else Some(Chunks(text, chunkSize))
  }

  /** All chunks glued back together. */
  function Concat(ss: seq<string>): string
  {
    if ss == [] then [] else ss[0] + Concat(ss[1..])
  }

  /** Concatenating the chunks gives back the text: no overlap, no gap. */
  lemma {:induction false} ChunksConcat(text: string, size: nat)
    requires size > 0
    ensures Concat(Chunks(text, size)) == text
    decreases |text|
  {
    if |text| > size {
      ChunksConcat(text[size..], size);
      assert text == text[..size] + text[size..];
    }
  }

  /** Every chunk but the last has exactly `size` characters; the last has 1 to `size`. */
  lemma {:induction false} ChunkLengths(text: string, size: nat)
    requires size > 0
    ensures var cs := Chunks(text, size);
      && (forall i :: 0 <= i < |cs| - 1 ==> |cs[i]| == size)
      && (cs != [] ==> 1 <= |cs[|cs| - 1]| <= size)
    decreases |text|
  {
    if |text| > size {
      ChunkLengths(text[size..], size);
    }
  }

  lemma {:induction false} MulStep(a: int, b: int, d: int)
    requires a < b && d > 0
    ensures a * d + d <= b * d
    decreases b - a
  {
    if b > a + 1 {
      MulStep(a, b - 1, d);
    }
    assert b * d == (b - 1) * d + d;
  }

  lemma DivUnique(n: int, d: int, q: int)
    requires d > 0 && q * d <= n < q * d + d
    ensures n / d == q
  {
    var q' := n / d;
    assert n == q' * d + n % d && 0 <= n % d < d;
    if q' < q {
      MulStep(q', q, d);
    } else if q' > q {
      MulStep(q, q', d);
    }
  }

  /** `(c + 1) * d` distributes. */
  lemma MulSucc(c: int, d: int)
    ensures (c + 1) * d == c * d + d
  {
  }

  /** `c` chunks cover the text, and `c - 1` of them would not. */
  lemma {:induction false} ChunkBounds(text: string, size: nat)
    requires size > 0
    ensures var c := |Chunks(text, size)|;
      && |text| <= c * size
      && (c > 0 ==> (c - 1) * size < |text|)
      && (c == 0 <==> text == [])
    decreases |text|
  {
    if |text| > size {
      var rest := text[size..];
      ChunkBounds(rest, size);
      var c' := |Chunks(rest, size)|;
      assert |Chunks(text, size)| == c' + 1;
      MulSucc(c', size);
      MulSucc(c' - 1, size);
    }
  }

  /** There are ceil(len(text) / size) chunks, and none exactly when the text is empty. */
  lemma ChunkCount(text: string, size: nat)
    requires size > 0
    ensures |Chunks(text, size)| == (|text| + size - 1) / size
    ensures text == [] <==> Chunks(text, size) == []
  {
    var c := |Chunks(text, size)|;
    ChunkBounds(text, size);
    MulSucc(c - 1, size);
    DivUnique(|text| + size - 1, size, c);
  }

  /** `i * size`, counted up one chunk at a time. */
  function ChunkStart(size: nat, i: nat): nat
  {
    if i == 0 then 0 else ChunkStart(size, i - 1) + size
  }

  lemma {:induction false} ChunkStartMul(size: nat, i: nat)
    ensures ChunkStart(size, i) == i * size
  {
    if i > 0 {
      ChunkStartMul(size, i - 1);
      MulSucc(i - 1, size);
    }
  }

  /** Chunk i starts `ChunkStart(size, i)` characters in and runs for `size` or to the end. */
  lemma {:induction false} ChunkFrom(text: string, size: nat, i: nat)
    requires size > 0
    requires i < |Chunks(text, size)|
    ensures ChunkStart(size, i) < |text|
    ensures Chunks(text, size)[i] == text[ChunkStart(size, i) .. Min(ChunkStart(size, i) + size, |text|)]
    decreases i
  {
    if i > 0 {
      var rest := text[size..];
      assert |text| > size;
      assert Chunks(text, size)[i] == Chunks(rest, size)[i - 1];
      ChunkFrom(rest, size, i - 1);
      var a := ChunkStart(size, i - 1);
      var b := Min(a + size, |rest|);
      DropSlice(text, size, a, b);
    }
  }

  /** A slice of a suffix is a slice of the whole, shifted. */
  lemma DropSlice<T>(s: seq<T>, k: nat, a: nat, b: nat)
    requires k <= |s| && a <= b <= |s| - k
    ensures s[k..][a..b] == s[k + a .. k + b]
  {
    assert forall t :: 0 <= t < b - a ==> s[k..][a..b][t] == s[k + a + t];
  }

  /** Chunk i is `text[i*size : min((i+1)*size, len(text))]`: left to right, no overlap, no gap. */
  lemma ChunkAt(text: string, size: nat, i: nat)
    requires size > 0
    requires i < |Chunks(text, size)|
    ensures i * size < |text|
    ensures Chunks(text, size)[i] == text[i * size .. Min((i + 1) * size, |text|)]
  {
    ChunkFrom(text, size, i);
    ChunkStartMul(size, i);
    MulSucc(i, size);
  }

  /** `chunk_text("abcd", chunk_size=2)` yields `["ab", "cd"]`. */
  lemma ChunkTextExample()
    ensures ChunkText("abcd", 2) == Some(["ab", "cd"])
  {
    var text := "abcd";
    assert text[..2] == "ab" && text[2..] == "cd";
    assert Chunks("cd", 2) == ["cd"];
    assert Chunks(text, 2) == ["ab"] + Chunks("cd", 2);
    assert Chunks(text, 2) == ["ab", "cd"];
    assert ChunkText(text, 2) == Some(Chunks(text, 2));
  }

  /**
   * The embedding provider: one vector per input string, or None when the provider raises.
   * The vector element type is left abstract.
   */
  type Embedder<E> = seq<string> -> Option<seq<seq<E>>>

  datatype EmbedError =
    | ProviderFailed   // the provider call raised
    | NoVector         // `[0]` on an empty answer raised IndexError

  /** `client.embed_texts([text])[0]`: a one-element batch, element 0 taken. */
  function EmbedOne<E>(embed: Embedder<E>, text: string): (r: Result<seq<E>, EmbedError>)
    ensures r.Ok? <==> embed([text]).Some? && |embed([text]).value| > 0
    ensures r.Ok? ==> r.value == embed([text]).value[0]
    ensures r == Err(ProviderFailed) <==> embed([text]).None?
  {
    match embed([text])
    case None => Err(ProviderFailed)
    case Some(vs) => if |vs| == 0 then Err(NoVector) else Ok(vs[0])
  }
}
