/**
 * The JSON-Lines vector index: its records, the line framing used by `save` and `load`, and the
 * assembly of entries in `build_vector_index`.
 *
 * The per-record JSON codec (`json.dumps(asdict(entry))` / `IndexEntry(**json.loads(line))`) is
 * left abstract as a pair of functions; the laws the round trip needs are the predicate
 * `LawfulCodec`. Files are payload strings: an absent file is `None`.
 */
module Indexing {
  import opened Wrappers
  import opened Embeddings
  import opened Text

  /** One retrievable unit: where it came from, its text verbatim, and its vector. */
  datatype IndexEntry<E> = IndexEntry(uri: string, content: string, embedding: seq<E>)

  /** The per-record codec: encode one entry as a JSON object, decode one line back. */
  datatype Codec<!E> = Codec(encode: IndexEntry<E> -> string, decode: string -> Option<IndexEntry<E>>)

  /**
   * What `json.dumps`/`json.loads` guarantee: decoding an encoded record gives the entry back,
   * an encoded record never holds a raw newline (JSON escapes it), and an empty line is not a
   * JSON document.
   */
  ghost predicate LawfulCodec<E(!new)>(c: Codec<E>)
  {
    && (forall e :: c.decode(c.encode(e)) == Some(e))
    && (forall e :: '\n' !in c.encode(e))
    && c.decode("") == None
  }

  /** The file a saved index consists of: each record followed by "\n", in entry order. */
  function Frame<E>(c: Codec<E>, es: seq<IndexEntry<E>>): string
  {
    if es == [] then "" else c.encode(es[0]) + "\n" + Frame(c, es[1..])
  }

  lemma {:induction false} FrameSnoc<E>(c: Codec<E>, es: seq<IndexEntry<E>>, e: IndexEntry<E>)
    ensures Frame(c, es + [e]) == Frame(c, es) + c.encode(e) + "\n"
  {
    if es == [] {
      assert [e][1..] == [];
    } else {
      assert (es + [e])[1..] == es[1..] + [e];
      FrameSnoc(c, es[1..], e);
    }
  }

  /** Length of the first line of `s`: the characters before the first '\n'. */
  function LineLength(s: string): (k: nat)
    ensures k <= |s|
    ensures forall j :: 0 <= j < k ==> s[j] != '\n'
    ensures k < |s| ==> s[k] == '\n'
  {
    if s == [] || s[0] == '\n' then 0 else 1 + LineLength(s[1..])
  }

  /**
   * Iteration over a text file, line by line: the payload is cut after every '\n', terminators
   * are dropped (the JSON decoder ignores them), a last line without terminator is kept, and an
   * empty payload has no lines. A blank line is kept as "".
   */
  function Lines(s: string): (ls: seq<string>)
    ensures forall i :: 0 <= i < |ls| ==> '\n' !in ls[i]
    decreases |s|
  {
    if s == [] then []
    else
      var k := LineLength(s);
      if k < |s| then [s[..k]] + Lines(s[k + 1..]) else [s]
  }

  lemma LinesCons(r: string, rest: string)
    requires '\n' !in r
    ensures Lines(r + "\n" + rest) == [r] + Lines(rest)
  {
    var s := r + "\n" + rest;
    assert s[|r|] == '\n';
    assert forall j :: 0 <= j < |r| ==> s[j] == r[j];
    assert LineLength(s) == |r|;
    assert s[..|r|] == r;
    assert s[|r| + 1..] == rest;
  }

  /**
   * The lines joined with '\n' give back the payload, less its final '\n' if it has one: no
   * character is lost or added, and an unterminated last line is kept.
   */
  lemma {:induction false} LinesJoin(s: string)
    ensures Join("\n", Lines(s)) + (if s != [] && s[|s| - 1] == '\n' then "\n" else "") == s
    decreases |s|
  {
    if s != [] {
      var k := LineLength(s);
      if k == |s| {
        assert Lines(s) == [s];
      } else {
        var r, t := s[..k], s[k + 1..];
        assert s == r + "\n" + t;
        LinesCons(r, t);
        if t == [] {
          assert Lines(s) == [r];
        } else {
          LinesJoin(t);
          JoinCons("\n", r, Lines(t));
          var j, e := Join("\n", Lines(t)), if t[|t| - 1] == '\n' then "\n" else "";
          assert s[|s| - 1] == t[|t| - 1];
          Reassociate(r, "\n", j, e);
        }
      }
    }
  }

  lemma Reassociate<T>(a: seq<T>, b: seq<T>, c: seq<T>, d: seq<T>)
    ensures a + b + c + d == a + b + (c + d)
  {
  }

  /** A line followed by a non-empty rest joins with one separator between them. */
  lemma JoinCons(sep: string, x: string, xs: seq<string>)
    requires xs != []
    ensures Join(sep, [x] + xs) == x + sep + Join(sep, xs)
  {
    assert ([x] + xs)[1..] == xs;
  }

  /** `save` writes exactly one line per entry, in entry order, each the entry's record. */
  lemma {:induction false} FrameLines<E(!new)>(c: Codec<E>, es: seq<IndexEntry<E>>)
    requires LawfulCodec(c)
    ensures |Lines(Frame(c, es))| == |es|
    ensures forall i :: 0 <= i < |es| ==> Lines(Frame(c, es))[i] == c.encode(es[i])
    ensures multiset(Frame(c, es))['\n'] == |es|
  {
    if es != [] {
      var r := c.encode(es[0]);
      assert '\n' !in r;
      FrameLines(c, es[1..]);
      LinesCons(r, Frame(c, es[1..]));
      assert Frame(c, es) == r + "\n" + Frame(c, es[1..]);
      NewlineCount(r, Frame(c, es[1..]));
    }
  }

  /** A line without '\n', its terminator and a rest hold one '\n' more than the rest. */
  lemma NewlineCount(r: string, rest: string)
    requires '\n' !in r
    ensures multiset(r + "\n" + rest)['\n'] == multiset(rest)['\n'] + 1
  {
    assert multiset(r)['\n'] == 0;
    assert multiset(r + "\n" + rest) == multiset(r) + multiset("\n") + multiset(rest);
  }

  /** `load` aborts on a line the decoder rejects; the whole load fails, naming that line. */
  datatype LoadError = MalformedRecord(line: string)

  /** Decode every line in order; the first line that fails to decode aborts the load. */
  function ParseLines<E>(c: Codec<E>, lines: seq<string>): Result<seq<IndexEntry<E>>, LoadError>
  {
    if lines == [] then Ok([])
    else match c.decode(lines[0])
      case None => Err(MalformedRecord(lines[0]))
      case Some(e) =>
        match ParseLines(c, lines[1..])
        case Ok(es) => Ok([e] + es)
        case Err(x) => Err(x)
  }

  lemma {:induction false} ParseSnoc<E>(c: Codec<E>, lines: seq<string>, l: string)
    requires ParseLines(c, lines).Ok?
    ensures ParseLines(c, lines + [l]) ==
      match c.decode(l)
      case None => Err(MalformedRecord(l))
      case Some(e) => Ok(ParseLines(c, lines).value + [e])
  {
    if lines == [] {
      assert lines + [l] == [l];
      assert [l][1..] == [];
      assert ParseLines(c, lines).value == [];
      assert ParseLines(c, [l][1..]) == Ok([]);
      match c.decode(l)
      case None =>
      case Some(e) =>
        assert [e] + [] == [] + [e];
    } else {
      var e0 := c.decode(lines[0]).value;
      var tail := ParseLines(c, lines[1..]).value;
      assert ParseLines(c, lines) == Ok([e0] + tail);
      assert (lines + [l])[0] == lines[0];
      assert (lines + [l])[1..] == lines[1..] + [l];
      ParseSnoc(c, lines[1..], l);
      match c.decode(l)
      case None =>
      case Some(e) =>
        assert [e0] + (tail + [e]) == [e0] + tail + [e];
    }
  }

  lemma {:induction false} ParseAbort<E>(c: Codec<E>, lines: seq<string>, more: seq<string>)
    requires ParseLines(c, lines).Err?
    ensures ParseLines(c, lines + more) == ParseLines(c, lines)
  {
    assert (lines + more)[0] == lines[0];
    if c.decode(lines[0]).Some? {
      assert (lines + more)[1..] == lines[1..] + more;
      ParseAbort(c, lines[1..], more);
    }
  }

  /**
   * A load succeeds exactly when every line decodes, and then it holds one entry per line, in
   * line order.
   */
  lemma {:induction false} ParseLinesOk<E>(c: Codec<E>, lines: seq<string>)
    ensures ParseLines(c, lines).Ok? <==> forall i :: 0 <= i < |lines| ==> c.decode(lines[i]).Some?
    ensures ParseLines(c, lines).Ok? ==>
      && |ParseLines(c, lines).value| == |lines|
      && forall i :: 0 <= i < |lines| ==> c.decode(lines[i]) == Some(ParseLines(c, lines).value[i])
  {
    if lines != [] {
      ParseLinesOk(c, lines[1..]);
      if c.decode(lines[0]).Some? && ParseLines(c, lines[1..]).Ok? {
        var es := ParseLines(c, lines).value;
        forall i | 0 <= i < |lines|
          ensures c.decode(lines[i]) == Some(es[i])
        {
          if i > 0 {
            assert lines[i] == lines[1..][i - 1];
          }
        }
      } else if c.decode(lines[0]).Some? {
        var i :| 0 <= i < |lines[1..]| && c.decode(lines[1..][i]).None?;
        assert c.decode(lines[i + 1]).None?;
      }
    }
  }

  /** The records of a saved index decode back to its entries, in order. */
  lemma {:induction false} ParseFrame<E(!new)>(c: Codec<E>, es: seq<IndexEntry<E>>)
    requires LawfulCodec(c)
    ensures ParseLines(c, Lines(Frame(c, es))) == Ok(es)
  {
    if es != [] {
      var r := c.encode(es[0]);
      assert '\n' !in r;
      LinesCons(r, Frame(c, es[1..]));
      ParseFrame(c, es[1..]);
      var ls := Lines(Frame(c, es));
      assert ls[0] == r && ls[1..] == Lines(Frame(c, es[1..]));
      assert c.decode(r) == Some(es[0]);
      assert [es[0]] + es[1..] == es;
    }
  }

  /** An ordered sequence of entries, persisted one JSON record per line. */
  datatype VectorIndex<E> = VectorIndex(entries: seq<IndexEntry<E>>)
  {
    /** `VectorIndex.save`: the payload written to the file. */
    method Save(c: Codec<E>) returns (payload: string)
      ensures payload == Frame(c, entries)
      ensures payload == "" <==> entries == []
    {
      payload := "";
      for i := 0 to |entries|
        invariant payload == Frame(c, entries[..i])
      {
        FrameSnoc(c, entries[..i], entries[i]);
        assert entries[..i + 1] == entries[..i] + [entries[i]];
        payload := payload + c.encode(entries[i]) + "\n";
      }
      assert entries[..|entries|] == entries;
    }

    /** `VectorIndex.load`: `file` is the file's contents, None when the path does not exist. */
    static method Load(file: Option<string>, c: Codec<E>) returns (r: Result<VectorIndex<E>, LoadError>)
      ensures r == Loaded(c, file)
      ensures file.None? ==> r == Ok(VectorIndex([]))
    {
      if file.None? {
        return Ok(VectorIndex([]));
      }
      var lines := Lines(file.value);
      var entries: seq<IndexEntry<E>> := [];
      for i := 0 to |lines|
        invariant ParseLines(c, lines[..i]) == Ok(entries)
      {
        var line := lines[i];
        ParseSnoc(c, lines[..i], line);
        assert lines[..i + 1] == lines[..i] + [line];
        match c.decode(line) {
          case None =>
            ParseAbort(c, lines[..i + 1], lines[i + 1..]);
            assert lines[..i + 1] + lines[i + 1..] == lines;
            return Err(MalformedRecord(line));
          case Some(e) =>
            entries := entries + [e];
        }
      }
      assert lines[..|lines|] == lines;
      return Ok(VectorIndex(entries));
    }
  }

  /** What `load` yields for a file's contents (None: the path does not exist). */
  function Loaded<E>(c: Codec<E>, file: Option<string>): Result<VectorIndex<E>, LoadError>
  {
    match file
    case None => Ok(VectorIndex([]))
    case Some(payload) =>
      match ParseLines(c, Lines(payload))
      case Ok(es) => Ok(VectorIndex(es))
      case Err(x) => Err(x)
  }

  /** Loading what `save` wrote gives back the same entries in the same order. */
  lemma LoadAfterSave<E(!new)>(c: Codec<E>, index: VectorIndex<E>)
    requires LawfulCodec(c)
    ensures Loaded(c, Some(Frame(c, index.entries))) == Ok(index)
  {
    ParseFrame(c, index.entries);
  }

  /**
   * A file loads exactly when each of its lines decodes; the index then has one entry per line,
   * in line order. Blank lines are not skipped: under a lawful codec a blank line aborts the load.
   */
  lemma LoadedLines<E(!new)>(c: Codec<E>, payload: string)
    ensures var r := Loaded(c, Some(payload));
      var ls := Lines(payload);
      && (r.Ok? <==> forall i :: 0 <= i < |ls| ==> c.decode(ls[i]).Some?)
      && (r.Ok? ==>
            && |r.value.entries| == |ls|
            && forall i :: 0 <= i < |ls| ==> c.decode(ls[i]) == Some(r.value.entries[i]))
      && (LawfulCodec(c) && "" in ls ==> r.Err?)
  {
    ParseLinesOk(c, Lines(payload));
  }

  /** A source document: its path (as `path.as_posix()`) and its decoded text. */
  datatype Document = Document(path: string, text: string)

  /** The numeral of a decimal digit. */
  function DigitChar(d: nat): (ch: char)
    requires d < 10
    ensures '0' <= ch <= '9'
    ensures ch as int == '0' as int + d
  {
    ('0' as int + d) as char
  }

  /** Digit `d` is the `d`-th of the ten numerals `0` to `9`. */
  lemma DigitNumeral(d: nat)
    requires d < 10
    ensures DigitChar(d) == "0123456789"[d]
  {
  }

  /** The number a string of decimal digits spells, most significant digit first. */
  function DecimalValue(s: string): int
  {
    if s == [] then 0 else 10 * DecimalValue(s[..|s| - 1]) + (s[|s| - 1] as int - '0' as int)
  }

  /** Decimal notation of `n`, as an f-string prints it. */
  function NatToString(n: nat): (s: string)
    ensures |s| >= 1 && (|s| == 1 <==> n < 10)
    ensures forall i :: 0 <= i < |s| ==> '0' <= s[i] <= '9'
  {
    if n < 10 then [DigitChar(n)] else NatToString(n / 10) + [DigitChar(n % 10)]
  }

  /** The decimal form spells `n`, and has no leading zero unless `n` is 0. */
  lemma {:induction false} NatToStringValue(n: nat)
    ensures DecimalValue(NatToString(n)) == n
    ensures NatToString(n)[0] == '0' <==> n == 0
  {
    if n >= 10 {
      NatToStringValue(n / 10);
      var p := NatToString(n / 10);
      assert NatToString(n) == p + [DigitChar(n % 10)];
      assert (p + [DigitChar(n % 10)])[..|p|] == p;
    }
  }

  /** The uri of chunk `n` of the document at `path`. */
  function ChunkUri(path: string, n: nat): string
  {
    path + "#chunk=" + NatToString(n)
  }

  /** The (uri, content) pairs one document contributes: its chunks, numbered from zero. */
  function DocPlan(d: Document): seq<(string, string)>
  {
    var cs := Chunks(d.text, DefaultChunkSize);
    seq(|cs|, n requires 0 <= n < |cs| => (ChunkUri(d.path, n), cs[n]))
  }

  /** The (uri, content) pairs of all documents: documents in order, chunks in order within each. */
  function Plan(docs: seq<Document>): seq<(string, string)>
  {
    if docs == [] then [] else Plan(docs[..|docs| - 1]) + DocPlan(docs[|docs| - 1])
  }

  /**
   * Embed each planned chunk in order, one provider call per chunk; the first failing call
   * aborts the whole build.
   */
  function EmbedAll<E>(embed: Embedder<E>, items: seq<(string, string)>): Result<seq<IndexEntry<E>>, EmbedError>
  {
    if items == [] then Ok([])
    else
      match EmbedAll(embed, items[..|items| - 1])
      case Err(x) => Err(x)
      case Ok(es) =>
        var item := items[|items| - 1];
        match EmbedOne(embed, item.1)
        case Err(x) => Err(x)
        case Ok(v) => Ok(es + [IndexEntry(item.0, item.1, v)])
  }

  /** The index `build_vector_index` returns (before it is saved). */
  function Built<E>(docs: seq<Document>, embed: Embedder<E>): Result<VectorIndex<E>, EmbedError>
  {
    match EmbedAll(embed, Plan(docs))
    case Ok(es) => Ok(VectorIndex(es))
    case Err(x) => Err(x)
  }

  lemma {:induction false} PlanAppend(a: seq<Document>, b: seq<Document>)
    ensures Plan(a + b) == Plan(a) + Plan(b)
    decreases |b|
  {
    if b == [] {
      assert a + b == a;
    } else {
      var b' := b[..|b| - 1];
      assert (a + b)[..|a + b| - 1] == a + b';
      PlanAppend(a, b');
    }
  }

  lemma {:induction false} EmbedAllAbort<E>(embed: Embedder<E>, a: seq<(string, string)>, b: seq<(string, string)>)
    requires EmbedAll(embed, a).Err?
    ensures EmbedAll(embed, a + b) == EmbedAll(embed, a)
    decreases |b|
  {
    if b == [] {
      assert a + b == a;
    } else {
      var b' := b[..|b| - 1];
      assert (a + b)[..|a + b| - 1] == a + b';
      EmbedAllAbort(embed, a, b');
    }
  }

  lemma EmbedAllSnoc<E>(embed: Embedder<E>, items: seq<(string, string)>, item: (string, string))
    requires EmbedAll(embed, items).Ok?
    ensures EmbedAll(embed, items + [item]) ==
      match EmbedOne(embed, item.1)
      case Err(x) => Err(x)
      case Ok(v) => Ok(EmbedAll(embed, items).value + [IndexEntry(item.0, item.1, v)])
  {
    assert (items + [item])[..|items + [item]| - 1] == items;
  }

  lemma PlanSplitLast(docs: seq<Document>, d: nat)
    requires d < |docs|
    ensures Plan(docs[..d + 1]) == Plan(docs[..d]) + DocPlan(docs[d])
  {
    var prefix := docs[..d + 1];
    assert prefix[..|prefix| - 1] == docs[..d];
  }

  /** Where chunk `n` of document `d` sits in the plan: everything before it, it, everything after. */
  lemma PlanSplit(docs: seq<Document>, d: nat, n: nat)
    requires d < |docs| && n < |DocPlan(docs[d])|
    ensures Plan(docs) ==
      (Plan(docs[..d]) + DocPlan(docs[d])[..n + 1]) + (DocPlan(docs[d])[n + 1..] + Plan(docs[d + 1..]))
  {
    var plan := DocPlan(docs[d]);
    var prefix := docs[..d + 1];
    PlanSplitLast(docs, d);
    assert docs == prefix + docs[d + 1..];
    PlanAppend(prefix, docs[d + 1..]);
    SplitConcat(Plan(docs[..d]), plan, Plan(docs[d + 1..]), n + 1);
  }

  lemma SplitConcat<T>(a: seq<T>, b: seq<T>, c: seq<T>, k: nat)
    requires k <= |b|
    ensures (a + b) + c == (a + b[..k]) + (b[k..] + c)
  {
    assert b == b[..k] + b[k..];
  }

  /**
   * One step of the builder's inner loop: embedding chunk `n` of document `d` extends the
   * entries by one, or its failure is the failure of the whole build.
   */
  lemma BuildStep<E>(docs: seq<Document>, embed: Embedder<E>, d: nat, n: nat, entries: seq<IndexEntry<E>>)
    requires d < |docs| && n < |Chunks(docs[d].text, DefaultChunkSize)|
    requires EmbedAll(embed, Plan(docs[..d]) + DocPlan(docs[d])[..n]) == Ok(entries)
    ensures var chunk := Chunks(docs[d].text, DefaultChunkSize)[n];
      match EmbedOne(embed, chunk)
      case Err(x) => Built(docs, embed) == Err(x)
      case Ok(v) =>
        EmbedAll(embed, Plan(docs[..d]) + DocPlan(docs[d])[..n + 1]) ==
          Ok(entries + [IndexEntry(ChunkUri(docs[d].path, n), chunk, v)])
  {
    var done, plan := Plan(docs[..d]), DocPlan(docs[d]);
    assert done + plan[..n + 1] == (done + plan[..n]) + [plan[n]];
    EmbedAllSnoc(embed, done + plan[..n], plan[n]);
    if EmbedOne(embed, plan[n].1).Err? {
      PlanSplit(docs, d, n);
      EmbedAllAbort(embed, done + plan[..n + 1], plan[n + 1..] + Plan(docs[d + 1..]));
    }
  }

  /**
   * `build_vector_index`: one entry per chunk, uri `path#chunk=n`, content the chunk, embedding
   * from a one-element provider call; the assembled index is then saved (`saved` is the file
   * written). A provider failure aborts before anything is saved.
   */
  method BuildVectorIndex<E>(docs: seq<Document>, embed: Embedder<E>, c: Codec<E>)
    returns (r: Result<VectorIndex<E>, EmbedError>, saved: Option<string>)
    ensures r == Built(docs, embed)
    ensures saved.Some? <==> r.Ok?
    ensures r.Ok? ==> saved == Some(Frame(c, r.value.entries))
  {
    var entries: seq<IndexEntry<E>> := [];
    for d := 0 to |docs|
      invariant EmbedAll(embed, Plan(docs[..d])) == Ok(entries)
    {
      var doc := docs[d];
      var chunks := Chunks(doc.text, DefaultChunkSize);
      assert Plan(docs[..d]) + DocPlan(doc)[..0] == Plan(docs[..d]);
      for n := 0 to |chunks|
        invariant EmbedAll(embed, Plan(docs[..d]) + DocPlan(doc)[..n]) == Ok(entries)
      {
        BuildStep(docs, embed, d, n, entries);
        var embedding := EmbedOne(embed, chunks[n]);
        if embedding.Err? {
          return Err(embedding.error), None;
        }
        var uri := ChunkUri(doc.path, n);
        entries := entries + [IndexEntry(uri, chunks[n], embedding.value)];
      }
      assert DocPlan(doc)[..|chunks|] == DocPlan(doc);
      PlanSplitLast(docs, d);
    }
    assert docs[..|docs|] == docs;
    var index := VectorIndex(entries);
    var payload := index.Save(c);
    return Ok(index), Some(payload);
  }

  /** Distinct numbers print differently. */
  lemma {:induction false} NatToStringInjective(a: nat, b: nat)
    ensures NatToString(a) == NatToString(b) <==> a == b
  {
    if NatToString(a) == NatToString(b) {
      var s := NatToString(a);
      assert (a < 10) <==> (b < 10);
      if a < 10 {
        assert DigitChar(a) == s[0] == DigitChar(b);
      } else {
        assert NatToString(a / 10) == s[..|s| - 1] == NatToString(b / 10);
        NatToStringInjective(a / 10, b / 10);
        assert DigitChar(a % 10) == s[|s| - 1] == DigitChar(b % 10);
      }
    }
  }

  /** Index of the last '#' in `u`, or -1. */
  function LastHash(u: string): (k: int)
    ensures -1 <= k < |u|
  {
    if u == [] then -1
    else if u[|u| - 1] == '#' then |u| - 1
    else LastHash(u[..|u| - 1])
  }

  lemma {:induction false} LastHashSkips(x: string, t: string)
    requires forall i :: 0 <= i < |t| ==> t[i] != '#'
    ensures LastHash(x + t) == LastHash(x)
    decreases |t|
  {
    if t == [] {
      assert x + t == x;
    } else {
      assert (x + t)[..|x + t| - 1] == x + t[..|t| - 1];
      LastHashSkips(x, t[..|t| - 1]);
    }
  }

  /** The uri's last '#' is the one that follows the path: the path can be read back from it. */
  lemma ChunkUriPath(path: string, n: nat)
    ensures LastHash(ChunkUri(path, n)) == |path|
    ensures ChunkUri(path, n)[..|path|] == path
    ensures ChunkUri(path, n)[|path| + 7..] == NatToString(n)
  {
    var t := "chunk=" + NatToString(n);
    assert ChunkUri(path, n) == (path + "#") + t;
    assert (path + "#")[..|path + "#"| - 1] == path;
    LastHashSkips(path + "#", t);
  }

  /** Two chunk uris coincide exactly when both path and chunk number do. */
  lemma ChunkUriInjective(p1: string, n1: nat, p2: string, n2: nat)
    ensures ChunkUri(p1, n1) == ChunkUri(p2, n2) <==> p1 == p2 && n1 == n2
  {
    if ChunkUri(p1, n1) == ChunkUri(p2, n2) {
      ChunkUriPath(p1, n1);
      ChunkUriPath(p2, n2);
      NatToStringInjective(n1, n2);
    }
  }

  /**
   * Embedding the planned chunks succeeds exactly when every provider call does; then there is
   * one entry per chunk, in plan order, holding the chunk's uri, the chunk itself and element 0
   * of its provider answer. Otherwise the error is that of the first failing call.
   */
  lemma {:induction false} EmbedAllSpec<E>(embed: Embedder<E>, items: seq<(string, string)>)
    ensures var r := EmbedAll(embed, items);
      && (r.Ok? <==> forall i :: 0 <= i < |items| ==> EmbedOne(embed, items[i].1).Ok?)
      && (r.Ok? ==>
            && |r.value| == |items|
            && forall i :: 0 <= i < |items| ==>
                 r.value[i] == IndexEntry(items[i].0, items[i].1, EmbedOne(embed, items[i].1).value))
      && (r.Err? ==>
            exists i ::
              && 0 <= i < |items|
              && EmbedOne(embed, items[i].1) == Err(r.error)
              && forall j :: 0 <= j < i ==> EmbedOne(embed, items[j].1).Ok?)
    decreases |items|
  {
    if items != [] {
      var pre := items[..|items| - 1];
      EmbedAllSpec(embed, pre);
      assert forall i :: 0 <= i < |pre| ==> pre[i] == items[i];
    }
  }

  /**
   * A document contributes ceil(|text| / 1500) entries; entry `n` has uri `path#chunk=n` and
   * holds the slice `text[1500 n .. min(1500 (n + 1), |text|)]`; their contents, glued
   * together, give back the text.
   */
  lemma DocPlanSpec(d: Document)
    ensures |DocPlan(d)| == (|d.text| + DefaultChunkSize - 1) / DefaultChunkSize
    ensures forall n :: 0 <= n < |DocPlan(d)| ==>
      && DocPlan(d)[n].0 == ChunkUri(d.path, n)
      && n * DefaultChunkSize < |d.text|
      && DocPlan(d)[n].1 == d.text[n * DefaultChunkSize .. Min((n + 1) * DefaultChunkSize, |d.text|)]
    ensures Concat(seq(|DocPlan(d)|, n requires 0 <= n < |DocPlan(d)| => DocPlan(d)[n].1)) == d.text
  {
    var cs := Chunks(d.text, DefaultChunkSize);
    ChunkCount(d.text, DefaultChunkSize);
    forall n | 0 <= n < |cs|
      ensures n * DefaultChunkSize < |d.text|
      ensures cs[n] == d.text[n * DefaultChunkSize .. Min((n + 1) * DefaultChunkSize, |d.text|)]
    {
      ChunkAt(d.text, DefaultChunkSize, n);
    }
    assert seq(|DocPlan(d)|, n requires 0 <= n < |DocPlan(d)| => DocPlan(d)[n].1) == cs;
    ChunksConcat(d.text, DefaultChunkSize);
  }

  /** The plan names its chunks after the documents they come from: item `i` is chunk `n` of document `k`. */
  lemma {:induction false} PlanUriOrigin(docs: seq<Document>, i: nat) returns (k: nat, n: nat)
    requires i < |Plan(docs)|
    ensures k < |docs| && Plan(docs)[i].0 == ChunkUri(docs[k].path, n)
    decreases |docs|
  {
    var pre := docs[..|docs| - 1];
    var a := Plan(pre);
    assert Plan(docs) == a + DocPlan(docs[|docs| - 1]);
    if i < |a| {
      k, n := PlanUriOrigin(pre, i);
      assert pre[k] == docs[k];
    } else {
      k, n := |docs| - 1, i - |a|;
    }
  }

  /**
   * Uris are unique within a built index when the document paths are distinct: the chunk
   * number tells chunks of one document apart, and the path those of different documents.
   */
  lemma {:induction false} PlanUrisUnique(docs: seq<Document>)
    requires forall k1, k2 :: 0 <= k1 < k2 < |docs| ==> docs[k1].path != docs[k2].path
    ensures forall i, j :: 0 <= i < j < |Plan(docs)| ==> Plan(docs)[i].0 != Plan(docs)[j].0
    decreases |docs|
  {
    if docs != [] {
      var pre, last := docs[..|docs| - 1], docs[|docs| - 1];
      PlanUrisUnique(pre);
      var a, b := Plan(pre), DocPlan(last);
      var all := Plan(docs);
      assert all == a + b;
      forall i, j | 0 <= i < j < |all|
        ensures all[i].0 != all[j].0
      {
        if j < |a| {
          assert all[i] == a[i] && all[j] == a[j];
        } else if |a| <= i {
          ChunkUriInjective(last.path, i - |a|, last.path, j - |a|);
        } else {
          var k, n := PlanUriOrigin(pre, i);
          assert pre[k].path == docs[k].path != last.path;
          ChunkUriInjective(pre[k].path, n, last.path, j - |a|);
        }
      }
    }
  }

  /**
   * The builder's result laid out: a build succeeds exactly when every chunk embeds, and then
   * entry `i` carries the uri and content of planned chunk `i` (documents in order, chunks in
   * order) and the vector the provider returned for it.
   */
  lemma BuiltSpec<E>(docs: seq<Document>, embed: Embedder<E>)
    ensures var r := Built(docs, embed);
      var plan := Plan(docs);
      && (r.Ok? <==> forall i :: 0 <= i < |plan| ==> EmbedOne(embed, plan[i].1).Ok?)
      && (r.Ok? ==>
            && |r.value.entries| == |plan|
            && forall i :: 0 <= i < |plan| ==>
                 && r.value.entries[i].uri == plan[i].0
                 && r.value.entries[i].content == plan[i].1
                 && EmbedOne(embed, plan[i].1) == Ok(r.value.entries[i].embedding))
  {
    EmbedAllSpec(embed, Plan(docs));
  }

  /** One short document gives one entry `path#chunk=0` holding the whole text. */
  lemma HelloWorldIndex<E>(path: string, embed: Embedder<E>, v: seq<E>)
    requires embed(["hello world"]) == Some([v])
    ensures Built([Document(path, "hello world")], embed) ==
      Ok(VectorIndex([IndexEntry(path + "#chunk=0", "hello world", v)]))
  {
    var doc := Document(path, "hello world");
    assert Chunks(doc.text, DefaultChunkSize) == ["hello world"];
    assert NatToString(0) == "0";
    assert ChunkUri(path, 0) == path + "#chunk=0";
    assert DocPlan(doc) == [(path + "#chunk=0", "hello world")];
    assert [doc][..0] == [];
    assert Plan([doc]) == DocPlan(doc);
    var items := [(path + "#chunk=0", "hello world")];
    assert items[..0] == [];
    assert EmbedOne(embed, "hello world") == Ok(v);
    var e := IndexEntry(path + "#chunk=0", "hello world", v);
    assert EmbedAll(embed, items) == Ok([] + [e]);
    assert [] + [e] == [e];
    assert Plan([doc]) == items;
  }
}
