/** The text chunker: a fixed-width window slid over the stripped text in
    steps of `chunkSize - chunkOverlap`, each non-blank window becoming one
    chunk that carries its 0-based index, where its window starts and how
    long the window is. */
module TextChunking {
  import opened Common
  import opened Text
  import AppConfig

  /** One chunk: its stripped text and what its `metadata` dict is made of,
      namely the caller's metadata, the chunk's 0-based index and its span
      `[start, end)` in the stripped text. */
  datatype Chunk = Chunk(text: string, base: Metadata, index: nat, start: nat, length: nat)
  {
    /** The chunk's `metadata` dict. */
    function MetadataDict(): Metadata
    {
      ChunkMetadata(base, index, start, length)
    }
  }

  /** The four keys the chunker writes over the caller's metadata. */
  const PositionalKeys: set<string> := {"chunk_index", "chunk_size", "start_char", "end_char"}

  /** `x` is `step` added to itself some number of times. */
  predicate MultipleOf(x: nat, step: nat)
    requires step > 0
    decreases x
  {
    x == 0 || (x >= step && MultipleOf(x - step, step))
  }

  /** End of the window that starts at `start`: `text[start:start + size]` stops early at the end. */
  function WindowEnd(t: string, size: int, start: nat): nat
    requires 0 < size
  {
    if start + size <= |t| then start + size else |t|
  }

  function Window(t: string, size: int, start: nat): string
    requires 0 < size && start <= |t|
  {
    t[start..WindowEnd(t, size, start)]
  }

  /** `chunk_text.strip()` is non-empty: the first non-whitespace character
      at or after `start` lies inside the window. */
  ghost predicate KeepsWindow(t: string, size: int, start: nat)
    requires 0 < size
  {
    exists p :: start <= p < WindowEnd(t, size, start) && !IsSpace(t[p])
  }

  /** A window is kept exactly when stripping it leaves something, that is,
      when it is not all whitespace. */
  lemma KeepsWindowIffNonBlank(t: string, size: int, start: nat)
    requires 0 < size && start <= |t|
    ensures KeepsWindow(t, size, start) <==> Strip(Window(t, size, start)) != []
    ensures KeepsWindow(t, size, start) <==> !IsBlank(Window(t, size, start))
  {
    var w := Window(t, size, start);
    StripEmptyIffBlank(w);
    if KeepsWindow(t, size, start) {
      var p :| start <= p < WindowEnd(t, size, start) && !IsSpace(t[p]);
      assert w[p - start] == t[p];
    } else {
      forall k | 0 <= k < |w|
        ensures IsSpace(w[k])
      {
        assert w[k] == t[start + k];
      }
    }
  }

  /** The metadata of one chunk: a copy of `base` with the positional keys set. */
  function ChunkMetadata(base: Metadata, index: nat, start: nat, length: nat): Metadata
  {
    base + map["chunk_index" := Int(index), "chunk_size" := Int(length),
                "start_char" := Int(start), "end_char" := Int(start + length)]
  }

  /** The chunk for the window at `start`, numbered `index`. */
  function MakeChunk(t: string, base: Metadata, size: int, start: nat, index: nat): Chunk
    requires 0 < size && start <= |t|
  {
    Chunk(Strip(Window(t, size, start)), base, index, start, |Window(t, size, start)|)
  }

  /** `[p for p in range(i, n, step) if keep(p)]`: the positions the loop
      visits from `i` on that `keep` accepts, in order. */
  ghost function RangeWhere(keep: nat -> bool, n: nat, step: nat, i: nat): seq<nat>
    requires 0 < step
    decreases n - i
  {
    if i >= n then []
    else if keep(i) then [i] + RangeWhere(keep, n, step, i + step)
    else RangeWhere(keep, n, step, i + step)
  }

  /** Which window starts the loop keeps. */
  ghost function Keeps(t: string, size: int): nat -> bool
    requires 0 < size
  {
    (p: nat) => KeepsWindow(t, size, p)
  }

  /** The starts of the windows that the loop keeps, from window start `i` on. */
  ghost function StartsFrom(t: string, size: int, step: int, i: nat): (r: seq<nat>)
    requires 0 < size && 0 < step
    ensures forall k :: 0 <= k < |r| ==> i <= r[k] < |t|
  {
    RangeWhereBounds(Keeps(t, size), |t|, step, i);
    RangeWhere(Keeps(t, size), |t|, step, i)
  }

  /** The chunks for the windows at `starts`, numbered from `index` on. */
  ghost function ChunksOf(t: string, base: Metadata, size: int, starts: seq<nat>, index: nat): (cs: seq<Chunk>)
    requires 0 < size && forall k :: 0 <= k < |starts| ==> starts[k] < |t|
  {
    seq(|starts|, k requires 0 <= k < |starts| => MakeChunk(t, base, size, starts[k], index + k))
  }

  /** What the chunking loop returns when it reaches window start `i` having
      emitted `chunks`: each later window that is not blank adds its chunk,
      numbered by how many came before it. */
  ghost function ChunkLoop(t: string, base: Metadata, size: int, step: int, i: nat, chunks: seq<Chunk>): seq<Chunk>
    requires 0 < size && 0 < step
    decreases |t| - i
  {
    if i >= |t| then chunks
    else if KeepsWindow(t, size, i) then ChunkLoop(t, base, size, step, i + step, chunks + [MakeChunk(t, base, size, i, |chunks|)])
    else ChunkLoop(t, base, size, step, i + step, chunks)
  }

  /** The metadata `chunk_text` starts from: the caller's dict or `{}`. */
  function BaseOf(metadata: Option<Metadata>): Metadata
  {
    if metadata.Some? then metadata.value else map[]
  }

  /** What `chunk_text(text, base)` returns for the given size and overlap.
      A negative step makes `range(0, len, step)` empty. */
  ghost function ChunkSpec(text: string, base: Metadata, size: int, overlap: int): seq<Chunk>
    requires 0 < size && size != overlap
  {
    if size - overlap < 0 then [] else ChunkLoop(Strip(text), base, size, size - overlap, 0, [])
  }

  /** The starts of the windows behind the chunks `ChunkSpec` emits. */
  ghost function ChunkStarts(text: string, size: int, overlap: int): seq<nat>
    requires 0 < size && size != overlap
  {
    if size - overlap < 0 then [] else StartsFrom(Strip(text), size, size - overlap, 0)
  }

  /** One pass of the loop body: the window at `i` adds its stripped text
      when that is not empty, and the loop goes on at `i + step`. */
  lemma ChunkLoopStep(t: string, base: Metadata, size: int, step: int, i: nat, chunks: seq<Chunk>)
    requires 0 < size && 0 < step && i < |t|
    ensures var w := Window(t, size, i);
      ChunkLoop(t, base, size, step, i, chunks) == ChunkLoop(t, base, size, step, i + step,
        if Strip(w) != [] then chunks + [Chunk(Strip(w), base, |chunks|, i, |w|)] else chunks)
  {
    KeepsWindowIffNonBlank(t, size, i);
  }

  /** Putting one more start in front adds its chunk in front; `next` is the
      number the following chunk gets. */
  lemma ChunksOfCons(t: string, base: Metadata, size: int, i: nat, starts: seq<nat>, index: nat, next: nat)
    requires 0 < size && i < |t| && forall k :: 0 <= k < |starts| ==> starts[k] < |t|
    requires next == index + 1
    ensures ChunksOf(t, base, size, [i] + starts, index)
      == [MakeChunk(t, base, size, i, index)] + ChunksOf(t, base, size, starts, next)
  {
    var L, R := ChunksOf(t, base, size, [i] + starts, index), [MakeChunk(t, base, size, i, index)] + ChunksOf(t, base, size, starts, next);
    forall k | 0 < k < |L|
      ensures L[k] == R[k]
    {
      var j := index + k;
      assert ([i] + starts)[k] == starts[k - 1];
      assert next + (k - 1) == j;
    }
    assert L[0] == R[0];
  }

  /** The kept starts from `i` on: `i` itself when its window is kept, then
      those from `i + step` on. */
  lemma StartsFromStep(t: string, size: int, step: int, i: nat)
    requires 0 < size && 0 < step
    ensures i >= |t| ==> StartsFrom(t, size, step, i) == []
    ensures i < |t| && KeepsWindow(t, size, i) ==> StartsFrom(t, size, step, i) == [i] + StartsFrom(t, size, step, i + step)
    ensures i < |t| && !KeepsWindow(t, size, i) ==> StartsFrom(t, size, step, i) == StartsFrom(t, size, step, i + step)
  {
    assert Keeps(t, size)(i) == KeepsWindow(t, size, i);
  }

  /** Emitting the chunk of start `i` and then those of `starts` gives the
      chunks of `[i] + starts`. */
  lemma EmitThenRest(t: string, base: Metadata, size: int, i: nat, starts: seq<nat>, chunks: seq<Chunk>)
    requires 0 < size && i < |t| && forall k :: 0 <= k < |starts| ==> starts[k] < |t|
    ensures var chunks' := chunks + [MakeChunk(t, base, size, i, |chunks|)];
      chunks' + ChunksOf(t, base, size, starts, |chunks'|) == chunks + ChunksOf(t, base, size, [i] + starts, |chunks|)
  {
    var c := MakeChunk(t, base, size, i, |chunks|);
    var chunks' := chunks + [c];
    ChunksOfCons(t, base, size, i, starts, |chunks|, |chunks'|);
    assert chunks' + ChunksOf(t, base, size, starts, |chunks'|) == chunks + ([c] + ChunksOf(t, base, size, starts, |chunks'|));
  }

  /** The loop, reaching window start `i` with `chunks` emitted, appends the
      chunks of the kept window starts from `i` on. */
  lemma {:induction false} ChunkLoopIsKeptStarts(t: string, base: Metadata, size: int, step: int, i: nat, chunks: seq<Chunk>)
    requires 0 < size && 0 < step
    ensures ChunkLoop(t, base, size, step, i, chunks) == chunks + ChunksOf(t, base, size, StartsFrom(t, size, step, i), |chunks|)
    decreases |t| - i
  {
    StartsFromStep(t, size, step, i);
    if i < |t| {
      if KeepsWindow(t, size, i) {
        var chunks' := chunks + [MakeChunk(t, base, size, i, |chunks|)];
        ChunkLoopIsKeptStarts(t, base, size, step, i + step, chunks');
        EmitThenRest(t, base, size, i, StartsFrom(t, size, step, i + step), chunks);
      } else {
        ChunkLoopIsKeptStarts(t, base, size, step, i + step, chunks);
      }
    }
  }

  /** The metadata `chunk_document` seeds: the document's name, its path (the
      name when no path is given) and the length of the unstripped text. */
  function DocumentBase(text: string, documentName: string, filePath: Option<string>): Metadata
  {
    map["document_name" := Str(documentName),
        "file_path" := Str(OrString(filePath, documentName)),
        "document_length" := Int(|text|)]
  }

  class TextChunker {
    const chunkSize: int
    const chunkOverlap: int

    /** `TextChunker(chunk_size, chunk_overlap)`: a missing or zero argument
        falls back to the configured value (Python's `or`). */
    constructor(chunkSize: Option<int>, chunkOverlap: Option<int>, config: AppConfig.Config)
      ensures this.chunkSize == (if chunkSize.Some? && chunkSize.value != 0 then chunkSize.value else config.chunkSize)
      ensures this.chunkOverlap == (if chunkOverlap.Some? && chunkOverlap.value != 0 then chunkOverlap.value else config.chunkOverlap)
    {
      this.chunkSize := OrInt(chunkSize, config.chunkSize);
      this.chunkOverlap := OrInt(chunkOverlap, config.chunkOverlap);
    }

    /** `chunk_text`. A step of zero makes Python's `range` raise, so callers
        must not configure `chunkOverlap == chunkSize`; a negative size is
        excluded because Python's negative slice bounds are not modelled. */
    method ChunkText(text: string, metadata: Option<Metadata> := None) returns (chunks: seq<Chunk>)
      requires 0 < chunkSize && chunkSize != chunkOverlap
      ensures chunks == ChunkSpec(text, BaseOf(metadata), chunkSize, chunkOverlap)
    {
      if Strip(text) == [] {
        return [];
      }
      var base := BaseOf(metadata);
      chunks := [];
      var t := Strip(text);
      var size, step := chunkSize, chunkSize - chunkOverlap;
      if step < 0 {
        return [];
      }
      var i: nat := 0;
      while i < |t|
        invariant ChunkLoop(t, base, size, step, i, chunks) == ChunkLoop(t, base, size, step, 0, [])
        decreases |t| - i
      {
        var window := Window(t, size, i);
        ChunkLoopStep(t, base, size, step, i, chunks);
        if Strip(window) != [] {
          chunks := chunks + [Chunk(Strip(window), base, |chunks|, i, |window|)];
        }
        i := i + step;
      }
    }

    /** `chunk_document`: chunking with the document's metadata as the base. */
    method ChunkDocument(text: string, documentName: string, filePath: Option<string> := None) returns (chunks: seq<Chunk>)
      requires 0 < chunkSize && chunkSize != chunkOverlap
      ensures chunks == ChunkSpec(text, DocumentBase(text, documentName, filePath), chunkSize, chunkOverlap)
    {
      chunks := ChunkText(text, Some(DocumentBase(text, documentName, filePath)));
    }
  }

  // ----- Properties of the chunking specification -----

  /** Every position in `RangeWhere(keep, n, step, i)` lies in `[i, n)` and is accepted by `keep`. */
  lemma {:induction false} RangeWhereAt(keep: nat -> bool, n: nat, step: nat, i: nat, k: nat)
    requires 0 < step && k < |RangeWhere(keep, n, step, i)|
    ensures i <= RangeWhere(keep, n, step, i)[k] < n
    ensures keep(RangeWhere(keep, n, step, i)[k])
    decreases n - i
  {
    var S, S' := RangeWhere(keep, n, step, i), RangeWhere(keep, n, step, i + step);
    if !keep(i) {
      assert S == S';
      RangeWhereAt(keep, n, step, i + step, k);
    } else {
      assert S == [i] + S';
      if k > 0 {
        RangeWhereAt(keep, n, step, i + step, k - 1);
        assert S[k] == S'[k - 1];
      }
    }
  }

  lemma RangeWhereBounds(keep: nat -> bool, n: nat, step: nat, i: nat)
    requires 0 < step
    ensures forall k :: 0 <= k < |RangeWhere(keep, n, step, i)| ==> i <= RangeWhere(keep, n, step, i)[k] < n
  {
    forall k | 0 <= k < |RangeWhere(keep, n, step, i)|
      ensures i <= RangeWhere(keep, n, step, i)[k] < n
    {
      RangeWhereAt(keep, n, step, i, k);
    }
  }

  /** Starting from a multiple of `step`, every position visited is one. */
  lemma {:induction false} RangeWhereMultiple(keep: nat -> bool, n: nat, step: nat, i: nat, k: nat)
    requires 0 < step && MultipleOf(i, step)
    requires k < |RangeWhere(keep, n, step, i)|
    ensures MultipleOf(RangeWhere(keep, n, step, i)[k], step)
    decreases n - i
  {
    var S, S' := RangeWhere(keep, n, step, i), RangeWhere(keep, n, step, i + step);
    assert MultipleOf(i + step, step) by {
      assert (i + step) - step == i;
    }
    if !keep(i) {
      assert S == S';
      RangeWhereMultiple(keep, n, step, i + step, k);
    } else {
      assert S == [i] + S';
      if k > 0 {
        RangeWhereMultiple(keep, n, step, i + step, k - 1);
        assert S[k] == S'[k - 1];
      }
    }
  }

  /** The positions strictly increase. */
  lemma {:induction false} RangeWhereIncreasing(keep: nat -> bool, n: nat, step: nat, i: nat, k: nat, l: nat)
    requires 0 < step && k < l < |RangeWhere(keep, n, step, i)|
    ensures RangeWhere(keep, n, step, i)[k] < RangeWhere(keep, n, step, i)[l]
    decreases n - i
  {
    var S, S' := RangeWhere(keep, n, step, i), RangeWhere(keep, n, step, i + step);
    if !keep(i) {
      assert S == S';
      RangeWhereIncreasing(keep, n, step, i + step, k, l);
    } else {
      assert S == [i] + S';
      if k > 0 {
        RangeWhereIncreasing(keep, n, step, i + step, k - 1, l - 1);
      } else {
        RangeWhereAt(keep, n, step, i + step, l - 1);
        assert S[l] == S'[l - 1];
      }
    }
  }

  /** If `keep` accepts every position whose stride `[j, j + step)` holds
      `p`, some accepted position's stride holds `p`. */
  lemma {:induction false} RangeWhereCover(keep: nat -> bool, n: nat, step: nat, i: nat, p: nat)
    requires 0 < step && i <= p < n
    requires forall j: nat :: j <= p < j + step ==> keep(j)
    ensures exists k :: (0 <= k < |RangeWhere(keep, n, step, i)| &&
      RangeWhere(keep, n, step, i)[k] <= p < RangeWhere(keep, n, step, i)[k] + step)
    decreases n - i
  {
    var S, S' := RangeWhere(keep, n, step, i), RangeWhere(keep, n, step, i + step);
    if p < i + step {
      assert keep(i);
      assert S == [i] + S';
      assert S[0] == i;
    } else {
      RangeWhereCover(keep, n, step, i + step, p);
      var k :| 0 <= k < |S'| && S'[k] <= p < S'[k] + step;
      if keep(i) {
        assert S == [i] + S';
        assert S[k + 1] == S'[k];
      } else {
        assert S == S';
      }
    }
  }

  /** Chunk `k` is the stripped window at the `k`-th kept start, numbered
      `k`, with `chunk_size` the window's length: between 1 and `size`, less
      only where the window runs into the end of the text. */
  lemma ChunkSpecIsKeptWindows(text: string, base: Metadata, size: int, overlap: int)
    requires 0 < size && size != overlap
    ensures |ChunkSpec(text, base, size, overlap)| == |ChunkStarts(text, size, overlap)|
    ensures forall k :: 0 <= k < |ChunkStarts(text, size, overlap)| ==>
      var t, s := Strip(text), ChunkStarts(text, size, overlap)[k];
      s < |t| && 0 < |Window(t, size, s)| <= size && |Window(t, size, s)| == Min(size, |t| - s) &&
      ChunkSpec(text, base, size, overlap)[k] == Chunk(Strip(Window(t, size, s)), base, k, s, |Window(t, size, s)|)
  {
    if size - overlap > 0 {
      ChunkLoopIsKeptStarts(Strip(text), base, size, size - overlap, 0, []);
    }
  }

  /** Empty or whitespace-only text gives no chunks; any other text gives at
      least one when the step is positive. */
  lemma BlankIffNoChunks(text: string, base: Metadata, size: int, overlap: int)
    requires 0 < size && overlap < size
    ensures ChunkSpec(text, base, size, overlap) == [] <==> IsBlank(text)
  {
    var t := Strip(text);
    StripEmptyIffBlank(text);
    ChunkSpecIsKeptWindows(text, base, size, overlap);
    if t != [] {
      assert !IsSpace(t[0]);
      assert Keeps(t, size)(0);
      assert RangeWhere(Keeps(t, size), |t|, size - overlap, 0) != [];
    }
  }

  /** The spans start at multiples of the step, strictly increase, begin inside
      the stripped text, and every chunk's text is non-empty. */
  lemma ChunkStartsOrdered(text: string, base: Metadata, size: int, overlap: int)
    requires 0 < size && overlap < size
    ensures |ChunkSpec(text, base, size, overlap)| == |ChunkStarts(text, size, overlap)|
    ensures forall k :: 0 <= k < |ChunkStarts(text, size, overlap)| ==>
      MultipleOf(ChunkStarts(text, size, overlap)[k], size - overlap)
      && ChunkStarts(text, size, overlap)[k] < |Strip(text)|
      && ChunkSpec(text, base, size, overlap)[k].text != []
    ensures forall k, l :: 0 <= k < l < |ChunkStarts(text, size, overlap)| ==>
      ChunkStarts(text, size, overlap)[k] < ChunkStarts(text, size, overlap)[l]
  {
    var t, step := Strip(text), size - overlap;
    ChunkSpecIsKeptWindows(text, base, size, overlap);
    forall k | 0 <= k < |ChunkStarts(text, size, overlap)|
      ensures MultipleOf(ChunkStarts(text, size, overlap)[k], step)
      ensures ChunkStarts(text, size, overlap)[k] < |t|
      ensures ChunkSpec(text, base, size, overlap)[k].text != []
    {
      var s := ChunkStarts(text, size, overlap)[k];
      RangeWhereAt(Keeps(t, size), |t|, step, 0, k);
      RangeWhereMultiple(Keeps(t, size), |t|, step, 0, k);
      KeepsWindowIffNonBlank(t, size, s);
    }
    forall k, l | 0 <= k < l < |ChunkStarts(text, size, overlap)|
      ensures ChunkStarts(text, size, overlap)[k] < ChunkStarts(text, size, overlap)[l]
    {
      RangeWhereIncreasing(Keeps(t, size), |t|, step, 0, k, l);
    }
  }

  /** With `0 <= overlap < size`, every non-whitespace character of the
      stripped text lies in the span of some emitted chunk. */
  lemma ChunksCoverText(text: string, size: int, overlap: int, p: nat)
    requires 0 <= overlap < size
    requires p < |Strip(text)| && !IsSpace(Strip(text)[p])
    ensures exists k :: (0 <= k < |ChunkStarts(text, size, overlap)| &&
      ChunkStarts(text, size, overlap)[k] <= p < WindowEnd(Strip(text), size, ChunkStarts(text, size, overlap)[k]))
  {
    var t, step := Strip(text), size - overlap;
    forall j: nat | j <= p < j + step
      ensures Keeps(t, size)(j)
    {
      assert p < WindowEnd(t, size, j);
    }
    RangeWhereCover(Keeps(t, size), |t|, step, 0, p);
    var S := RangeWhere(Keeps(t, size), |t|, step, 0);
    assert ChunkStarts(text, size, overlap) == S;
    var k :| 0 <= k < |S| && S[k] <= p < S[k] + step;
    assert p < WindowEnd(t, size, S[k]);
  }

  /** Every chunk carries the caller's metadata except for the four positional keys. */
  lemma BaseMetadataCopied(text: string, base: Metadata, size: int, overlap: int)
    requires 0 < size && size != overlap
    ensures forall c :: c in ChunkSpec(text, base, size, overlap) ==>
      c.MetadataDict().Keys == base.Keys + PositionalKeys &&
      forall key :: key in base && key !in PositionalKeys ==> c.MetadataDict()[key] == base[key]
  {
    var cs := ChunkSpec(text, base, size, overlap);
    ChunkSpecIsKeptWindows(text, base, size, overlap);
    forall c | c in cs
      ensures c.MetadataDict().Keys == base.Keys + PositionalKeys
      ensures forall key :: key in base && key !in PositionalKeys ==> c.MetadataDict()[key] == base[key]
    {
      var k :| 0 <= k < |cs| && cs[k] == c;
      ChunkMetadataKeys(base, c.index, c.start, c.length);
    }
  }

  /** Setting the positional keys adds exactly those keys and keeps the rest. */
  lemma ChunkMetadataKeys(base: Metadata, index: nat, start: nat, length: nat)
    ensures ChunkMetadata(base, index, start, length).Keys == base.Keys + PositionalKeys
    ensures forall key :: key in base && key !in PositionalKeys ==> ChunkMetadata(base, index, start, length)[key] == base[key]
  {
  }

  /** `chunk_document` labels every chunk with the document's name, its path
      (falling back to the name) and the length of the unstripped text. */
  lemma DocumentMetadataInEveryChunk(text: string, name: string, filePath: Option<string>, size: int, overlap: int)
    requires 0 < size && size != overlap
    ensures forall c :: c in ChunkSpec(text, DocumentBase(text, name, filePath), size, overlap) ==>
      && "document_name" in c.MetadataDict() && c.MetadataDict()["document_name"] == Str(name)
      && "file_path" in c.MetadataDict()
      && c.MetadataDict()["file_path"] == Str(if filePath.Some? && filePath.value != "" then filePath.value else name)
      && "document_length" in c.MetadataDict() && c.MetadataDict()["document_length"] == Int(|text|)
  {
    var base := DocumentBase(text, name, filePath);
    assert "document_name" !in PositionalKeys && "file_path" !in PositionalKeys && "document_length" !in PositionalKeys;
    BaseMetadataCopied(text, base, size, overlap);
  }
}
