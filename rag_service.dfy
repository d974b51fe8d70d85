/**
 * The retrieval side of the service: the chunker of `index_document` (a
 * sliding window over each page's text, with absolute offsets and
 * deterministic ids), the reshaping of the vector store's query result in
 * `search`, and the context and citations of `get_context_for_question`.
 * Embedding, the vector store's `add` and `query` and its ranking are
 * outside the model: their inputs are what this code hands them and their
 * outputs are inputs here.
 */
module RagService {
  import opened Common
  import opened Strings
  import opened PdfService

  /** Number of characters of a chunk kept in a citation's preview. */
  const PreviewLength := 200

  /** The metadata stored with each chunk in the vector store. */
  datatype ChunkMeta = ChunkMeta(documentId: string, page: int, charStart: int, charEnd: int)

  /** What a chunk id is made of: the document id, the page number and the
      window start. Its text is `ChunkId` of the three. */
  datatype ChunkKey = ChunkKey(documentId: string, page: int, window: int)

  /** The three parallel lists handed to the vector store's `add`; each id
      is kept as its key, whose text is `KeyText`. */
  datatype ChunkBatch = ChunkBatch(ids: seq<ChunkKey>, documents: seq<string>, metadatas: seq<ChunkMeta>)

  /** The reference definition of a chunk: its text and metadata, the index of
      its page in the metadata, and its window start in the page. */
  datatype Chunk = Chunk(text: string, meta: ChunkMeta, pageIndex: int, window: int)

  function Min(a: int, b: int): int { if a <= b then a else b }

  // ---------------------------------------------------------------------
  // Chunk ids
  // ---------------------------------------------------------------------

  /** The id `f"{document_id}_page{page_num}_chunk{i}"`. */
  function ChunkId(documentId: string, page: int, i: int): string {
    documentId + "_page" + IntToString(page) + "_chunk" + IntToString(i)
  }

  /** The text of a key: the id string the vector store receives. */
  function KeyText(k: ChunkKey): string {
    ChunkId(k.documentId, k.page, k.window)
  }

  /** The key of a chunk's id. */
  function KeyOf(c: Chunk): ChunkKey {
    ChunkKey(c.meta.documentId, c.meta.page, c.window)
  }

  /** The id under which a chunk is stored. */
  function IdOf(c: Chunk): string {
    KeyText(KeyOf(c))
  }

  /** Index of the first occurrence of c in s (|s| when absent). */
  function FirstIndex(s: string, c: char): nat
    decreases |s|
  {
    if |s| == 0 || s[0] == c then 0 else 1 + FirstIndex(s[1..], c)
  }

  lemma {:induction false} FirstIndexAt(a: string, c: char, rest: string)
    requires c !in a
    ensures FirstIndex(a + [c] + rest, c) == |a|
    decreases |a|
  {
    if |a| > 0 {
      assert (a + [c] + rest)[1..] == a[1..] + [c] + rest;
      FirstIndexAt(a[1..], c, rest);
    }
  }

  lemma SplitAtMarker(a1: string, b1: string, a2: string, b2: string)
    requires '_' !in a1 && '_' !in a2
    requires a1 + "_chunk" + b1 == a2 + "_chunk" + b2
    ensures a1 == a2 && b1 == b2
  {
    var s1, s2 := a1 + "_chunk" + b1, a2 + "_chunk" + b2;
    assert s1 == a1 + ['_'] + ("chunk" + b1);
    assert s2 == a2 + ['_'] + ("chunk" + b2);
    FirstIndexAt(a1, '_', "chunk" + b1);
    FirstIndexAt(a2, '_', "chunk" + b2);
    assert a1 == s1[..|a1|] == s2[..|a2|] == a2;
    assert b1 == s1[|a1| + 6..] == s2[|a2| + 6..] == b2;
  }

  /** For a fixed document id, the chunk id determines the page number and
      the window start. */
  lemma ChunkIdInjective(documentId: string, p1: int, i1: int, p2: int, i2: int)
    requires ChunkId(documentId, p1, i1) == ChunkId(documentId, p2, i2)
    ensures p1 == p2 && i1 == i2
  {
    var pre := documentId + "_page";
    var a1, b1, a2, b2 := IntToString(p1), IntToString(i1), IntToString(p2), IntToString(i2);
    var x1 := a1 + "_chunk" + b1;
    var x2 := a2 + "_chunk" + b2;
    assert ChunkId(documentId, p1, i1) == pre + x1;
    assert ChunkId(documentId, p2, i2) == pre + x2;
    assert x1 == (pre + x1)[|pre|..];
    assert x2 == (pre + x2)[|pre|..];
    IntToStringChars(p1);
    IntToStringChars(p2);
    assert '_' !in a1 && '_' !in a2;
    SplitAtMarker(a1, b1, a2, b2);
    IntToStringInjective(p1, p2);
    IntToStringInjective(i1, i2);
  }

  // ---------------------------------------------------------------------
  // Windows and chunks: reference definitions
  // ---------------------------------------------------------------------

  /** `range(i, n, stride)` for a positive stride; empty when the stride is
      negative, as Python's range is. */
  function WindowsFrom(n: int, stride: int, i: int): (w: seq<int>)
    ensures stride <= 0 || i >= n ==> w == []
    ensures stride > 0 && i < n ==> |w| > 0 && w[0] == i
    decreases n - i
  {
    if stride <= 0 || i >= n then [] else [i] + WindowsFrom(n, stride, i + stride)
  }

  /** Window starts lie in [i, n) and strictly increase. */
  lemma {:induction false} WindowsBounds(n: int, stride: int, i: int, w: seq<int>)
    requires w == WindowsFrom(n, stride, i)
    ensures forall k :: 0 <= k < |w| ==> i <= w[k] < n
    ensures forall a, b :: 0 <= a < b < |w| ==> w[a] < w[b]
    decreases n - i
  {
    if stride > 0 && i < n {
      WindowsBounds(n, stride, i + stride, w[1..]);
    }
  }

  /** The window starts are exactly i, i+s, i+2s, ... below n: each start
      lies below n, consecutive starts are s apart and the first start
      beyond the last is at or past n. */
  lemma WindowsAreMultiples(n: int, stride: int, i: int)
    requires stride > 0
    ensures var w := WindowsFrom(n, stride, i);
      && (forall k :: 0 <= k < |w| ==> w[k] == i + k * stride)
      && (forall k :: 0 <= k < |w| ==> w[k] < n)
      && i + |w| * stride >= n
  {
    WindowsSpaced(n, stride, i);
    WindowsBounds(n, stride, i, WindowsFrom(n, stride, i));
  }

  /** Consecutive window starts are s apart, and the first start beyond the
      last is at or past n. */
  lemma {:induction false} WindowsSpaced(n: int, stride: int, i: int)
    requires stride > 0
    ensures var w := WindowsFrom(n, stride, i);
      && (forall k :: 0 <= k < |w| ==> w[k] == i + k * stride)
      && i + |w| * stride >= n
    decreases n - i
  {
    if i < n {
      WindowsSpaced(n, stride, i + stride);
      SpacedStep(n, stride, i, WindowsFrom(n, stride, i + stride));
    }
  }

  /** One more start in front keeps the starts s apart. */
  lemma SpacedStep(n: int, stride: int, i: int, w': seq<int>)
    requires stride > 0 && i < n && w' == WindowsFrom(n, stride, i + stride)
    requires forall k :: 0 <= k < |w'| ==> w'[k] == i + stride + k * stride
    requires i + stride + |w'| * stride >= n
    ensures var w := WindowsFrom(n, stride, i);
      && (forall k :: 0 <= k < |w| ==> w[k] == i + k * stride)
      && i + |w| * stride >= n
  {
    var w := [i] + w';
    assert WindowsFrom(n, stride, i) == w;
    forall k | 0 < k < |w| ensures w[k] == i + k * stride {
      assert w[k] == w'[k - 1];
      assert k * stride == (k - 1) * stride + stride;
    }
    assert (|w'| + 1) * stride == |w'| * stride + stride;
  }

  /** The chunk emitted for the window starting at i of a page. */
  function MakeChunk(documentId: string, page: PageRecord, pageIndex: int, i: int, text: string): Chunk {
    var start := page.charStart + i;
    Chunk(text,
          ChunkMeta(documentId, page.page, start, Min(start + |text|, page.charEnd)),
          pageIndex, i)
  }

  /** The chunks of one page over the given window starts: each window's
      text `page_text[i:i+chunk_size]`, skipped when blank. */
  function PageChunks(documentId: string, page: PageRecord, pageIndex: int, size: int, windows: seq<int>): seq<Chunk>
    decreases |windows|
  {
    if |windows| == 0 then []
    else
      var text := Slice(page.text, windows[0], windows[0] + size);
      (if IsBlank(text) then [] else [MakeChunk(documentId, page, pageIndex, windows[0], text)])
      + PageChunks(documentId, page, pageIndex, size, windows[1..])
  }

  /** The chunks of pages[q..], in page order. */
  function DocChunksFrom(documentId: string, pages: seq<PageRecord>, size: int, stride: int, q: nat): seq<Chunk>
    decreases |pages| - q
  {
    if q >= |pages| then []
    else PageChunks(documentId, pages[q], q, size, WindowsFrom(|pages[q].text|, stride, 0))
         + DocChunksFrom(documentId, pages, size, stride, q + 1)
  }

  /** The batch listing the chunks' ids, texts and metadata, in chunk order. */
  function BatchOf(chunks: seq<Chunk>): ChunkBatch
    decreases |chunks|
  {
    if |chunks| == 0 then ChunkBatch([], [], [])
    else Push(BatchOf(chunks[..|chunks| - 1]), chunks[|chunks| - 1])
  }

  /** Appending one chunk's id, text and metadata to the three lists. */
  function Push(b: ChunkBatch, c: Chunk): ChunkBatch {
    ChunkBatch(b.ids + [KeyOf(c)], b.documents + [c.text], b.metadatas + [c.meta])
  }

  /** Appending to all three lists. */
  function Concat(a: ChunkBatch, b: ChunkBatch): ChunkBatch {
    ChunkBatch(a.ids + b.ids, a.documents + b.documents, a.metadatas + b.metadatas)
  }

  /** The three lists of a batch are parallel: as long as the chunk list, and
      their k-th entries are the k-th chunk's id, text and metadata. */
  lemma {:induction false} BatchParallel(chunks: seq<Chunk>)
    ensures var b := BatchOf(chunks);
      && |b.ids| == |b.documents| == |b.metadatas| == |chunks|
      && forall k :: 0 <= k < |chunks| ==>
           b.ids[k] == KeyOf(chunks[k]) && b.documents[k] == chunks[k].text && b.metadatas[k] == chunks[k].meta
    decreases |chunks|
  {
    if |chunks| > 0 {
      var init := chunks[..|chunks| - 1];
      BatchParallel(init);
      forall k | 0 <= k < |chunks| - 1 ensures chunks[k] == init[k] { }
    }
  }

  lemma {:induction false} BatchOfAppend(a: seq<Chunk>, b: seq<Chunk>)
    ensures BatchOf(a + b) == Concat(BatchOf(a), BatchOf(b))
    decreases |b|
  {
    if |b| == 0 {
      assert a + [] == a;
      assert BatchOf(a).ids + [] == BatchOf(a).ids;
      assert BatchOf(a).documents + [] == BatchOf(a).documents;
      assert BatchOf(a).metadatas + [] == BatchOf(a).metadatas;
    } else {
      var b', c := b[..|b| - 1], b[|b| - 1];
      BatchOfAppend(a, b');
      AppendDropLast(a, b);
      PushConcat(BatchOf(a), BatchOf(b'), c);
    }
  }

  lemma PushConcat(x: ChunkBatch, y: ChunkBatch, c: Chunk)
    ensures Push(Concat(x, y), c) == Concat(x, Push(y, c))
  {
    assert (x.ids + y.ids) + [KeyOf(c)] == x.ids + (y.ids + [KeyOf(c)]);
    assert (x.documents + y.documents) + [c.text] == x.documents + (y.documents + [c.text]);
    assert (x.metadatas + y.metadatas) + [c.meta] == x.metadatas + (y.metadatas + [c.meta]);
  }

  // ---------------------------------------------------------------------
  // index_document
  // ---------------------------------------------------------------------

  /** `index_document` up to the vector store: the batch that is embedded
      and added to the store.  It fails when no metadata is stored, and when
      the stride `chunk_size - chunk_overlap` is 0 and there is a page to run
      `range` over. */
  method IndexDocument(store: map<string, Metadata>, documentId: string, chunkSize: int, chunkOverlap: int)
    returns (r: Result<ChunkBatch>)
    ensures documentId !in store ==> r == Failure(MetadataNotFound)
    ensures documentId in store ==> r == ChunkAll(documentId, store[documentId].pages, chunkSize, chunkOverlap)
  {
    var got := GetMetadata(store, documentId);
    if got.Failure? {
      return Failure(got.error);
    }
    r := ChunkPages(documentId, got.value.pages, chunkSize, chunkOverlap);
  }

  /** Specification of the chunking loop over all pages. */
  function ChunkAll(documentId: string, pages: seq<PageRecord>, chunkSize: int, chunkOverlap: int): Result<ChunkBatch> {
    if chunkSize - chunkOverlap == 0 && |pages| > 0 then Failure(ZeroStride)
    else Success(BatchOf(DocChunksFrom(documentId, pages, chunkSize, chunkSize - chunkOverlap, 0)))
  }

  /** The page loop of `index_document`, appending each page's chunks to the
      three lists. */
  method ChunkPages(documentId: string, pages: seq<PageRecord>, chunkSize: int, chunkOverlap: int)
    returns (r: Result<ChunkBatch>)
    ensures r == ChunkAll(documentId, pages, chunkSize, chunkOverlap)
  {
    var stride := chunkSize - chunkOverlap;
    var batch := ChunkBatch([], [], []);
    var p := 0;
    while p < |pages|
      invariant 0 <= p <= |pages|
      invariant stride == 0 ==> p == 0
      invariant batch == BatchOf(DocChunksUpTo(documentId, pages, chunkSize, stride, p))
    {
      if stride == 0 {
        return Failure(ZeroStride);
      }
      batch := ChunkPage(documentId, pages[p], p, chunkSize, stride, batch);
      DocChunksUpToStep(documentId, pages, chunkSize, stride, p);
      p := p + 1;
    }
    DocChunksUpToAll(documentId, pages, chunkSize, stride);
    r := Success(batch);
  }

  /** The chunks of pages[..p], in page order: what the page loop has
      produced after p pages. */
  function DocChunksUpTo(documentId: string, pages: seq<PageRecord>, size: int, stride: int, p: nat): seq<Chunk>
    requires p <= |pages|
  {
    if p == 0 then []
    else DocChunksUpTo(documentId, pages, size, stride, p - 1)
         + PageChunks(documentId, pages[p - 1], p - 1, size, WindowsFrom(|pages[p - 1].text|, stride, 0))
  }

  /** One more page appends that page's chunks to the batch. */
  lemma DocChunksUpToStep(documentId: string, pages: seq<PageRecord>, size: int, stride: int, p: nat)
    requires p < |pages|
    ensures BatchOf(DocChunksUpTo(documentId, pages, size, stride, p + 1))
            == Concat(BatchOf(DocChunksUpTo(documentId, pages, size, stride, p)),
                      BatchOf(PageChunks(documentId, pages[p], p, size, WindowsFrom(|pages[p].text|, stride, 0))))
  {
    BatchOfAppend(DocChunksUpTo(documentId, pages, size, stride, p),
                  PageChunks(documentId, pages[p], p, size, WindowsFrom(|pages[p].text|, stride, 0)));
  }

  lemma {:induction false} DocChunksSplit(documentId: string, pages: seq<PageRecord>, size: int, stride: int, p: nat)
    requires p <= |pages|
    ensures DocChunksUpTo(documentId, pages, size, stride, p) + DocChunksFrom(documentId, pages, size, stride, p)
            == DocChunksFrom(documentId, pages, size, stride, 0)
  {
    if p > 0 {
      DocChunksSplit(documentId, pages, size, stride, p - 1);
      DocChunksCons(documentId, pages, size, stride, p - 1);
      var before := DocChunksUpTo(documentId, pages, size, stride, p - 1);
      var here := PageChunks(documentId, pages[p - 1], p - 1, size, WindowsFrom(|pages[p - 1].text|, stride, 0));
      AppendAssoc(before, here, DocChunksFrom(documentId, pages, size, stride, p));
    }
  }

  lemma DocChunksUpToAll(documentId: string, pages: seq<PageRecord>, size: int, stride: int)
    ensures DocChunksUpTo(documentId, pages, size, stride, |pages|) == DocChunksFrom(documentId, pages, size, stride, 0)
  {
    DocChunksSplit(documentId, pages, size, stride, |pages|);
    assert DocChunksFrom(documentId, pages, size, stride, |pages|) == [];
    var all := DocChunksUpTo(documentId, pages, size, stride, |pages|);
    assert all + [] == all;
  }

  /** The window loop of `index_document` over one page: the page's chunks
      are appended to the three lists. */
  method ChunkPage(documentId: string, pageInfo: PageRecord, p: int, chunkSize: int, stride: int, batch: ChunkBatch)
    returns (out: ChunkBatch)
    ensures out == Concat(batch, BatchOf(PageChunks(documentId, pageInfo, p, chunkSize, WindowsFrom(|pageInfo.text|, stride, 0))))
  {
    var pageText, pageNum, pageStart := pageInfo.text, pageInfo.page, pageInfo.charStart;
    var chunks, chunkIds, chunkMetadatas := batch.documents, batch.ids, batch.metadatas;
    var i := 0;
    // range(0, len(page_text), stride) is empty for a negative stride
    while 0 < stride && i < |pageText|
      invariant 0 <= i
      invariant WindowLoop(documentId, pageInfo, p, chunkSize, stride, ChunkBatch(chunkIds, chunks, chunkMetadatas), i)
                == WindowLoop(documentId, pageInfo, p, chunkSize, stride, batch, 0)
      decreases |pageText| - i
    {
      var chunk := Slice(pageText, i, i + chunkSize);
      if !IsBlank(chunk) {
        var chunkStart := pageStart + i;
        var chunkEnd := Min(pageStart + i + |chunk|, pageInfo.charEnd);
        var chunkId := ChunkKey(documentId, pageNum, i);
        var meta := ChunkMeta(documentId, pageNum, chunkStart, chunkEnd);
        chunks := chunks + [chunk];
        chunkIds := chunkIds + [chunkId];
        chunkMetadatas := chunkMetadatas + [meta];
      }
      i := i + stride;
    }
    WindowLoopAppendsChunks(documentId, pageInfo, p, chunkSize, stride, batch, 0);
    out := ChunkBatch(chunkIds, chunks, chunkMetadatas);
  }

  /** The window loop over one page, from window start i on, as a recursive
      function over the lists accumulated so far. */
  function WindowLoop(documentId: string, page: PageRecord, q: int, size: int, stride: int, acc: ChunkBatch, i: int): ChunkBatch
    decreases |page.text| - i
  {
    if stride <= 0 || i >= |page.text| then acc
    else WindowLoop(documentId, page, q, size, stride, StepAcc(documentId, page, q, size, acc, i), i + stride)
  }

  /** One turn of the window loop at window start i: the lists with the
      window's chunk appended, unless its text is blank. */
  function StepAcc(documentId: string, page: PageRecord, q: int, size: int, acc: ChunkBatch, i: int): ChunkBatch {
    var t := Slice(page.text, i, i + size);
    if IsBlank(t) then acc else Push(acc, MakeChunk(documentId, page, q, i, t))
  }

  /** The window loop appends the page's chunks, in window order. */
  lemma {:induction false} WindowLoopAppendsChunks(documentId: string, page: PageRecord, q: int, size: int, stride: int, acc: ChunkBatch, i: int)
    ensures WindowLoop(documentId, page, q, size, stride, acc, i)
            == Concat(acc, BatchOf(PageChunks(documentId, page, q, size, WindowsFrom(|page.text|, stride, i))))
    decreases |page.text| - i
  {
    if stride <= 0 || i >= |page.text| {
      WindowLoopDone(documentId, page, q, size, stride, acc, i);
    } else {
      WindowLoopAppendsChunks(documentId, page, q, size, stride, StepAcc(documentId, page, q, size, acc, i), i + stride);
      WindowStep(documentId, page, q, size, stride, acc, i);
    }
  }

  /** Past the last window the loop leaves the batch as it is, and there are
      no chunks left to append. */
  lemma WindowLoopDone(documentId: string, page: PageRecord, q: int, size: int, stride: int, acc: ChunkBatch, i: int)
    requires stride <= 0 || i >= |page.text|
    ensures WindowLoop(documentId, page, q, size, stride, acc, i)
            == Concat(acc, BatchOf(PageChunks(documentId, page, q, size, WindowsFrom(|page.text|, stride, i))))
  {
    ConcatEmpty(acc);
  }

  /** One turn of the window loop: if the loop from the next window appends
      that window's chunks and the later ones, then the loop from window i
      appends all chunks from window i. */
  lemma WindowStep(documentId: string, page: PageRecord, q: int, size: int, stride: int, acc: ChunkBatch, i: int)
    requires 0 < stride && i < |page.text|
    requires var acc' := StepAcc(documentId, page, q, size, acc, i);
      WindowLoop(documentId, page, q, size, stride, acc', i + stride)
      == Concat(acc', BatchOf(PageChunks(documentId, page, q, size, WindowsFrom(|page.text|, stride, i + stride))))
    ensures WindowLoop(documentId, page, q, size, stride, acc, i)
            == Concat(acc, BatchOf(PageChunks(documentId, page, q, size, WindowsFrom(|page.text|, stride, i))))
  {
    var t := Slice(page.text, i, i + size);
    var later := PageChunks(documentId, page, q, size, WindowsFrom(|page.text|, stride, i + stride));
    PageChunksStep(documentId, page, q, size, stride, i);
    if !IsBlank(t) {
      PushThenConcat(acc, MakeChunk(documentId, page, q, i, t), later);
    }
  }

  /** Pushing one chunk and then appending the rest appends the chunk
      followed by the rest. */
  lemma PushThenConcat(acc: ChunkBatch, c: Chunk, later: seq<Chunk>)
    ensures Concat(Push(acc, c), BatchOf(later)) == Concat(acc, BatchOf([c] + later))
  {
    calc {
      Concat(Push(acc, c), BatchOf(later));
      { ConcatPush(acc, c, BatchOf(later)); assert BatchOf([c]) == Push(BatchOf([]), c); }
      Concat(acc, Concat(BatchOf([c]), BatchOf(later)));
      { BatchOfAppend([c], later); }
      Concat(acc, BatchOf([c] + later));
    }
  }

  lemma ConcatEmpty(acc: ChunkBatch)
    ensures Concat(acc, BatchOf([])) == acc
  {
    assert acc.ids + [] == acc.ids;
    assert acc.documents + [] == acc.documents;
    assert acc.metadatas + [] == acc.metadatas;
  }

  lemma ConcatPush(acc: ChunkBatch, c: Chunk, rest: ChunkBatch)
    ensures Concat(Push(acc, c), rest) == Concat(acc, Concat(Push(BatchOf([]), c), rest))
  {
    assert (acc.ids + [KeyOf(c)]) + rest.ids == acc.ids + ([KeyOf(c)] + rest.ids);
    assert (acc.documents + [c.text]) + rest.documents == acc.documents + ([c.text] + rest.documents);
    assert (acc.metadatas + [c.meta]) + rest.metadatas == acc.metadatas + ([c.meta] + rest.metadatas);
  }

  /** The chunks of a window list: the first window's chunk, unless blank,
      then the chunks of the remaining windows. */
  lemma PageChunksCons(documentId: string, page: PageRecord, q: int, size: int, windows: seq<int>)
    requires |windows| > 0
    ensures var t := Slice(page.text, windows[0], windows[0] + size);
      PageChunks(documentId, page, q, size, windows)
      == (if IsBlank(t) then [] else [MakeChunk(documentId, page, q, windows[0], t)])
         + PageChunks(documentId, page, q, size, windows[1..])
  {
  }

  /** One step of the window loop: the window at i, then the windows after it. */
  lemma PageChunksStep(documentId: string, page: PageRecord, q: int, size: int, stride: int, i: int)
    requires 0 < stride && i < |page.text|
    ensures var t := Slice(page.text, i, i + size);
      var now := PageChunks(documentId, page, q, size, WindowsFrom(|page.text|, stride, i));
      var later := PageChunks(documentId, page, q, size, WindowsFrom(|page.text|, stride, i + stride));
      && (IsBlank(t) ==> now == later)
      && (!IsBlank(t) ==> now == [MakeChunk(documentId, page, q, i, t)] + later)
  {
    var w := WindowsFrom(|page.text|, stride, i);
    assert w == [i] + WindowsFrom(|page.text|, stride, i + stride);
    assert w[1..] == WindowsFrom(|page.text|, stride, i + stride);
    PageChunksCons(documentId, page, q, size, w);
  }

  // ---------------------------------------------------------------------
  // Properties of the chunker
  // ---------------------------------------------------------------------

  lemma DocChunksCons(documentId: string, pages: seq<PageRecord>, size: int, stride: int, q: nat)
    requires q < |pages|
    ensures DocChunksFrom(documentId, pages, size, stride, q)
            == PageChunks(documentId, pages[q], q, size, WindowsFrom(|pages[q].text|, stride, 0))
               + DocChunksFrom(documentId, pages, size, stride, q + 1)
  {
  }

  /** A page record whose range is as long as its text, as extraction makes it. */
  predicate PageConsistent(page: PageRecord) {
    page.charEnd == page.charStart + |page.text|
  }

  /** Where a chunk comes from: a non-blank window of its page. */
  predicate FromWindow(documentId: string, pages: seq<PageRecord>, size: int, stride: int, c: Chunk) {
    && 0 <= c.pageIndex < |pages|
    && c.window in WindowsFrom(|pages[c.pageIndex].text|, stride, 0)
    && var t := Slice(pages[c.pageIndex].text, c.window, c.window + size);
       !IsBlank(t) && c == MakeChunk(documentId, pages[c.pageIndex], c.pageIndex, c.window, t)
  }

  lemma {:induction false} PageChunksFromWindows(documentId: string, pages: seq<PageRecord>, q: nat,
                                                size: int, stride: int, windows: seq<int>)
    requires q < |pages|
    requires forall k :: 0 <= k < |windows| ==> windows[k] in WindowsFrom(|pages[q].text|, stride, 0)
    ensures forall c :: c in PageChunks(documentId, pages[q], q, size, windows) ==>
              c.pageIndex == q && c.window in windows && FromWindow(documentId, pages, size, stride, c)
    decreases |windows|
  {
    if |windows| > 0 {
      var page := pages[q];
      var t := Slice(page.text, windows[0], windows[0] + size);
      var rest := PageChunks(documentId, page, q, size, windows[1..]);
      PageChunksCons(documentId, page, q, size, windows);
      PageChunksFromWindows(documentId, pages, q, size, stride, windows[1..]);
      forall c | c in PageChunks(documentId, page, q, size, windows)
        ensures c.pageIndex == q && c.window in windows && FromWindow(documentId, pages, size, stride, c)
      {
        if c !in rest {
          assert c == MakeChunk(documentId, page, q, windows[0], t);
        }
      }
    }
  }

  lemma {:induction false} DocChunksFromWindows(documentId: string, pages: seq<PageRecord>, size: int, stride: int, q: nat)
    ensures forall c :: c in DocChunksFrom(documentId, pages, size, stride, q) ==>
              c.pageIndex >= q && FromWindow(documentId, pages, size, stride, c)
    decreases |pages| - q
  {
    if q < |pages| {
      PageChunksFromWindows(documentId, pages, q, size, stride, WindowsFrom(|pages[q].text|, stride, 0));
      DocChunksFromWindows(documentId, pages, size, stride, q + 1);
    }
  }

  /** One chunk of a consistent page: its text is the slice of the page text
      at its window, non-empty and at most `chunk_size` long; its absolute
      range starts at the page start plus the window, is exactly as long as
      its text (the clamp to the page end never bites), and lies inside the
      page's range. */
  lemma ChunkInPage(documentId: string, page: PageRecord, q: int, w: int, size: int)
    requires PageConsistent(page) && 0 <= w < |page.text|
    requires !IsBlank(Slice(page.text, w, w + size))
    ensures var c := MakeChunk(documentId, page, q, w, Slice(page.text, w, w + size));
      && 1 <= |c.text|
      && (size > 0 ==> |c.text| <= size)
      && w + |c.text| <= |page.text|
      && c.text == page.text[w..w + |c.text|]
      && c.meta.charStart == page.charStart + w
      && c.meta.charEnd == c.meta.charStart + |c.text|
      && page.charStart <= c.meta.charStart < c.meta.charEnd <= page.charEnd
      && c.meta.page == page.page && c.meta.documentId == documentId
  {
    SliceFrom(page.text, w, w + size);
  }

  /** Every multiple of the stride below the page length is a window start. */
  lemma WindowOfMultiple(n: int, stride: int, w: int)
    requires stride > 0 && 0 <= w < n && w % stride == 0
    ensures w in WindowsFrom(n, stride, 0)
  {
    var ws := WindowsFrom(n, stride, 0);
    WindowsAreMultiples(n, stride, 0);
    MultipleIndex(n, stride, w, |ws|);
    assert ws[w / stride] == w;
  }

  /** w = k * stride with k below any m for which m * stride reaches n. */
  lemma MultipleIndex(n: int, stride: int, w: int, m: int)
    requires stride > 0 && 0 <= w < n && w % stride == 0 && m * stride >= n
    ensures 0 <= w / stride < m && w == w / stride * stride
  {
    var k := w / stride;
    assert (m - k) * stride == m * stride - k * stride;
  }

  /** A non-blank window of a page gives its chunk. */
  lemma {:induction false} WindowChunkInPage(documentId: string, page: PageRecord, q: int, size: int, windows: seq<int>, w: int)
    requires w in windows && !IsBlank(Slice(page.text, w, w + size))
    ensures MakeChunk(documentId, page, q, w, Slice(page.text, w, w + size)) in PageChunks(documentId, page, q, size, windows)
    decreases |windows|
  {
    PageChunksCons(documentId, page, q, size, windows);
    if windows[0] != w {
      assert w in windows[1..];
      WindowChunkInPage(documentId, page, q, size, windows[1..], w);
    }
  }

  /** The converse of `ChunksWithinPages`: every window `range(0, len(page_text),
      stride)` gives whose text is not blank yields its chunk, on every page. */
  lemma ChunksCoverWindows(documentId: string, pages: seq<PageRecord>, size: int, stride: int, q: nat, w: int)
    requires q < |pages| && stride > 0
    requires 0 <= w < |pages[q].text| && w % stride == 0
    requires !IsBlank(Slice(pages[q].text, w, w + size))
    ensures MakeChunk(documentId, pages[q], q, w, Slice(pages[q].text, w, w + size))
            in DocChunksFrom(documentId, pages, size, stride, 0)
  {
    WindowOfMultiple(|pages[q].text|, stride, w);
    WindowChunkInPage(documentId, pages[q], q, size, WindowsFrom(|pages[q].text|, stride, 0), w);
    PageChunksInDoc(documentId, pages, size, stride, q, 0);
  }

  predicate AllConsistent(pages: seq<PageRecord>) {
    forall q :: 0 <= q < |pages| ==> PageConsistent(pages[q])
  }

  /** Every chunk of a document with consistent page records lies inside one
      page: its text is that page's text at the chunk's window, and its range
      is as long as its text and inside the page's range. */
  lemma ChunksWithinPages(documentId: string, pages: seq<PageRecord>, size: int, stride: int, k: int)
    requires AllConsistent(pages)
    requires 0 <= k < |DocChunksFrom(documentId, pages, size, stride, 0)|
    ensures WithinPage(documentId, pages, size, DocChunksFrom(documentId, pages, size, stride, 0)[k])
  {
    var c := DocChunksFrom(documentId, pages, size, stride, 0)[k];
    DocChunksFromWindows(documentId, pages, size, stride, 0);
    assert FromWindow(documentId, pages, size, stride, c);
    WindowChunkWithinPage(documentId, pages, size, stride, c);
  }

  /** How a chunk sits in its page: the page's text at the chunk's window,
      non-blank and at most `chunk_size` long, recorded at the page start
      plus the window with a range as long as its text and inside the
      page's range. */
  predicate WithinPage(documentId: string, pages: seq<PageRecord>, size: int, c: Chunk) {
    && 0 <= c.pageIndex < |pages|
    && var page := pages[c.pageIndex];
    && 0 <= c.window < |page.text|
    && 1 <= |c.text| && (size > 0 ==> |c.text| <= size)
    && c.window + |c.text| <= |page.text|
    && !IsBlank(c.text)
    && c.text == page.text[c.window..c.window + |c.text|]
    && c.meta.charStart == page.charStart + c.window
    && c.meta.charEnd == c.meta.charStart + |c.text|
    && page.charStart <= c.meta.charStart < c.meta.charEnd <= page.charEnd
    && c.meta.page == page.page && c.meta.documentId == documentId
  }

  lemma WindowChunkWithinPage(documentId: string, pages: seq<PageRecord>, size: int, stride: int, c: Chunk)
    requires AllConsistent(pages) && FromWindow(documentId, pages, size, stride, c)
    ensures WithinPage(documentId, pages, size, c)
  {
    var page := pages[c.pageIndex];
    WindowsBounds(|page.text|, stride, 0, WindowsFrom(|page.text|, stride, 0));
    ChunkInPage(documentId, page, c.pageIndex, c.window, size);
  }

  /** Every page record's range holds exactly its text in f. */
  predicate PagesInText(f: string, pages: seq<PageRecord>) {
    forall q :: 0 <= q < |pages| ==>
      && 0 <= pages[q].charStart
      && pages[q].charEnd == pages[q].charStart + |pages[q].text|
      && pages[q].charEnd <= |f|
      && f[pages[q].charStart..pages[q].charEnd] == pages[q].text
  }

  lemma LayoutPagesInText(e: Extraction)
    requires WellLaidOut(e)
    ensures PagesInText(e.fullText, e.textByPage)
  {
  }

  /** A piece of a page's text sits at the same distance from the page's
      start in the full text. */
  lemma SliceOfSlice<T>(f: seq<T>, lo: int, hi: int, a: int, b: int)
    requires 0 <= lo <= hi <= |f| && 0 <= a <= b <= hi - lo
    ensures f[lo..hi][a..b] == f[lo + a..lo + b]
  {
    forall i | 0 <= i < b - a ensures f[lo..hi][a..b][i] == f[lo + a..lo + b][i] {
    }
  }

  /** Every chunk's text is the text between its recorded start and end,
      when every page's range holds its text. */
  lemma ChunkTextAtRange(f: string, documentId: string, pages: seq<PageRecord>, size: int, stride: int, k: int)
    requires PagesInText(f, pages)
    requires 0 <= k < |DocChunksFrom(documentId, pages, size, stride, 0)|
    ensures var c := DocChunksFrom(documentId, pages, size, stride, 0)[k];
      0 <= c.meta.charStart <= c.meta.charEnd <= |f| && f[c.meta.charStart..c.meta.charEnd] == c.text
  {
    assert AllConsistent(pages);
    ChunksWithinPages(documentId, pages, size, stride, k);
    var c := DocChunksFrom(documentId, pages, size, stride, 0)[k];
    PieceAtRange(f, pages[c.pageIndex], c.window, c.text, c.meta);
  }

  /** A piece of a page's text at offset w, recorded at the page start plus w,
      is the full text between its recorded start and end. */
  lemma PieceAtRange(f: string, page: PageRecord, w: int, text: string, meta: ChunkMeta)
    requires 0 <= page.charStart && page.charEnd == page.charStart + |page.text| <= |f|
    requires f[page.charStart..page.charEnd] == page.text
    requires 0 <= w && w + |text| <= |page.text| && text == page.text[w..w + |text|]
    requires meta.charStart == page.charStart + w && meta.charEnd == meta.charStart + |text|
    ensures 0 <= meta.charStart <= meta.charEnd <= |f| && f[meta.charStart..meta.charEnd] == text
  {
    SliceOfSlice(f, page.charStart, page.charEnd, w, w + |text|);
  }

  /** Round trip against the full text: on extracted metadata, every chunk's
      text is the full text between its recorded start and end. */
  lemma ChunkTextInFullText(e: Extraction, documentId: string, size: int, stride: int, k: int)
    requires WellLaidOut(e)
    requires 0 <= k < |DocChunksFrom(documentId, e.textByPage, size, stride, 0)|
    ensures var c := DocChunksFrom(documentId, e.textByPage, size, stride, 0)[k];
      0 <= c.meta.charStart <= c.meta.charEnd <= |e.fullText| &&
      e.fullText[c.meta.charStart..c.meta.charEnd] == c.text
  {
    LayoutPagesInText(e);
    ChunkTextAtRange(e.fullText, documentId, e.textByPage, size, stride, k);
  }

  /** Each chunk of a page carries the page's index, one of the windows as
      its window, and the id built from the page number and that window. */
  lemma {:induction false} PageChunksShape(documentId: string, page: PageRecord, q: int, size: int, windows: seq<int>)
    ensures forall c :: c in PageChunks(documentId, page, q, size, windows) ==>
              && c.pageIndex == q && c.window in windows && c.meta.documentId == documentId && c.meta.page == page.page
    decreases |windows|
  {
    if |windows| > 0 {
      PageChunksShape(documentId, page, q, size, windows[1..]);
    }
  }

  lemma {:induction false} DocChunksShape(documentId: string, pages: seq<PageRecord>, size: int, stride: int, q: nat)
    ensures forall c :: c in DocChunksFrom(documentId, pages, size, stride, q) ==>
              && q <= c.pageIndex < |pages| && c.meta.documentId == documentId && c.meta.page == pages[c.pageIndex].page
    decreases |pages| - q
  {
    if q < |pages| {
      PageChunksShape(documentId, pages[q], q, size, WindowsFrom(|pages[q].text|, stride, 0));
      DocChunksShape(documentId, pages, size, stride, q + 1);
    }
  }

  /** Chunks come out in page order, and within a page by ascending window
      start. */
  lemma {:induction false} ChunksOrdered(documentId: string, pages: seq<PageRecord>, size: int, stride: int, q: nat)
    ensures var d := DocChunksFrom(documentId, pages, size, stride, q);
      forall a, b :: 0 <= a < b < |d| ==>
        d[a].pageIndex < d[b].pageIndex || (d[a].pageIndex == d[b].pageIndex && d[a].window < d[b].window)
    decreases |pages| - q
  {
    if q < |pages| {
      var w := WindowsFrom(|pages[q].text|, stride, 0);
      var pc := PageChunks(documentId, pages[q], q, size, w);
      var rest := DocChunksFrom(documentId, pages, size, stride, q + 1);
      WindowsBounds(|pages[q].text|, stride, 0, w);
      PageChunksOrdered(documentId, pages[q], q, size, w);
      PageChunksShape(documentId, pages[q], q, size, w);
      ChunksOrdered(documentId, pages, size, stride, q + 1);
      DocChunksShape(documentId, pages, size, stride, q + 1);
      DocChunksCons(documentId, pages, size, stride, q);
      var d := pc + rest;
      forall a, b | 0 <= a < b < |d|
        ensures d[a].pageIndex < d[b].pageIndex || (d[a].pageIndex == d[b].pageIndex && d[a].window < d[b].window)
      {
        if b < |pc| {
          assert d[a] == pc[a] && d[b] == pc[b];
          assert pc[a] in pc && pc[b] in pc;
        } else if a < |pc| {
          assert d[b] == rest[b - |pc|] && rest[b - |pc|] in rest;
          assert d[a] == pc[a] && pc[a] in pc;
        } else {
          assert d[a] == rest[a - |pc|] && d[b] == rest[b - |pc|];
        }
      }
    }
  }

  lemma {:induction false} PageChunksOrdered(documentId: string, page: PageRecord, q: int, size: int, windows: seq<int>)
    requires forall a, b :: 0 <= a < b < |windows| ==> windows[a] < windows[b]
    ensures var pc := PageChunks(documentId, page, q, size, windows);
      forall a, b :: 0 <= a < b < |pc| ==> pc[a].window < pc[b].window
    decreases |windows|
  {
    if |windows| > 0 {
      var tail := windows[1..];
      PageChunksOrdered(documentId, page, q, size, tail);
      PageChunksAbove(documentId, page, q, size, tail, windows[0]);
      PageChunksCons(documentId, page, q, size, windows);
    }
  }

  /** Windows all beyond lo give chunks whose windows are all beyond lo. */
  lemma {:induction false} PageChunksAbove(documentId: string, page: PageRecord, q: int, size: int, windows: seq<int>, lo: int)
    requires forall k :: 0 <= k < |windows| ==> lo < windows[k]
    ensures var pc := PageChunks(documentId, page, q, size, windows);
      forall k :: 0 <= k < |pc| ==> lo < pc[k].window
    decreases |windows|
  {
    if |windows| > 0 {
      PageChunksAbove(documentId, page, q, size, windows[1..], lo);
      PageChunksCons(documentId, page, q, size, windows);
    }
  }

  /** Page numbers are pairwise distinct. */
  predicate DistinctPageNumbers(pages: seq<PageRecord>) {
    forall a, b :: 0 <= a < b < |pages| ==> pages[a].page != pages[b].page
  }

  lemma ChunkIdsDiffer(documentId: string, pages: seq<PageRecord>, size: int, stride: int, a: int, b: int)
    requires DistinctPageNumbers(pages)
    requires 0 <= a < b < |DocChunksFrom(documentId, pages, size, stride, 0)|
    ensures IdOf(DocChunksFrom(documentId, pages, size, stride, 0)[a]) != IdOf(DocChunksFrom(documentId, pages, size, stride, 0)[b])
  {
    var d := DocChunksFrom(documentId, pages, size, stride, 0);
    ChunksOrdered(documentId, pages, size, stride, 0);
    DocChunksShape(documentId, pages, size, stride, 0);
    assert d[a] in d && d[b] in d;
    var pa, pb := d[a].meta.page, d[b].meta.page;
    assert d[a].pageIndex < d[b].pageIndex || (d[a].pageIndex == d[b].pageIndex && d[a].window < d[b].window);
    if IdOf(d[a]) == IdOf(d[b]) {
      ChunkIdInjective(documentId, pa, d[a].window, pb, d[b].window);
    }
  }

  /** When page numbers are distinct, no two chunks share an id. */
  lemma ChunkIdsDistinct(documentId: string, pages: seq<PageRecord>, size: int, stride: int)
    requires DistinctPageNumbers(pages)
    ensures var d := DocChunksFrom(documentId, pages, size, stride, 0);
      forall a, b :: 0 <= a < b < |d| ==> IdOf(d[a]) != IdOf(d[b])
  {
    forall a, b | 0 <= a < b < |DocChunksFrom(documentId, pages, size, stride, 0)|
      ensures IdOf(DocChunksFrom(documentId, pages, size, stride, 0)[a]) != IdOf(DocChunksFrom(documentId, pages, size, stride, 0)[b])
    {
      ChunkIdsDiffer(documentId, pages, size, stride, a, b);
    }
  }

  /** Indexing a single-pass extraction gives pairwise distinct chunk ids. */
  lemma SinglePassChunkIdsDistinct(documentId: string, texts: seq<string>, size: int, stride: int)
    ensures var d := DocChunksFrom(documentId, Appended(Start, texts).textByPage, size, stride, 0);
      forall a, b :: 0 <= a < b < |d| ==> IdOf(d[a]) != IdOf(d[b])
  {
    SinglePassLayout(texts);
    ChunkIdsDistinct(documentId, Appended(Start, texts).textByPage, size, stride);
  }

  lemma {:induction false} PageChunksInDoc(documentId: string, pages: seq<PageRecord>, size: int, stride: int, q: nat, p: nat)
    requires p <= q < |pages|
    ensures forall c :: c in PageChunks(documentId, pages[q], q, size, WindowsFrom(|pages[q].text|, stride, 0)) ==>
              c in DocChunksFrom(documentId, pages, size, stride, p)
    decreases q - p
  {
    if p < q {
      PageChunksInDoc(documentId, pages, size, stride, q, p + 1);
    }
  }

  /** Some two different positions of the list carry the same id. */
  predicate HasDuplicateId(d: seq<Chunk>) {
    exists a, b :: 0 <= a < b < |d| && IdOf(d[a]) == IdOf(d[b])
  }

  lemma DuplicateIdWitness(d: seq<Chunk>, x: Chunk, y: Chunk)
    requires x in d && y in d && x != y && IdOf(x) == IdOf(y)
    ensures HasDuplicateId(d)
  {
    var a :| 0 <= a < |d| && d[a] == x;
    var b :| 0 <= b < |d| && d[b] == y;
    if a < b {
      assert IdOf(d[a]) == IdOf(d[b]);
    } else {
      assert IdOf(d[b]) == IdOf(d[a]);
    }
  }

  /** Two records of the same page number whose first windows are both
      non-blank give two chunks under one id, whatever their texts: the id
      depends only on the document, the page number and the window start. */
  lemma RepeatedPageDuplicatesIds(documentId: string, pages: seq<PageRecord>, size: int, stride: int, i: nat, j: nat)
    requires i < j < |pages| && pages[i].page == pages[j].page
    requires stride > 0 && |pages[i].text| > 0 && |pages[j].text| > 0
    requires !IsBlank(Slice(pages[i].text, 0, size)) && !IsBlank(Slice(pages[j].text, 0, size))
    ensures HasDuplicateId(DocChunksFrom(documentId, pages, size, stride, 0))
  {
    var wi, wj := WindowsFrom(|pages[i].text|, stride, 0), WindowsFrom(|pages[j].text|, stride, 0);
    PageChunksCons(documentId, pages[i], i, size, wi);
    PageChunksCons(documentId, pages[j], j, size, wj);
    var c1 := MakeChunk(documentId, pages[i], i, 0, Slice(pages[i].text, 0, size));
    var c2 := MakeChunk(documentId, pages[j], j, 0, Slice(pages[j].text, 0, size));
    assert c1 in PageChunks(documentId, pages[i], i, size, wi);
    assert c2 in PageChunks(documentId, pages[j], j, size, wj);
    PageChunksInDoc(documentId, pages, size, stride, i, 0);
    PageChunksInDoc(documentId, pages, size, stride, j, 0);
    DuplicateIdWitness(DocChunksFrom(documentId, pages, size, stride, 0), c1, c2);
  }

  /** After a partial primary parse of k >= 1 pages and a fallback pass over
      the file, the first page is indexed twice under its page number 1 (once
      with each parser's text), so the batch holds the same chunk id twice
      whenever both first windows are non-blank. */
  lemma FallbackDuplicatesChunkIds(documentId: string, done: seq<string>, again: seq<string>, size: int, stride: int)
    requires |done| > 0 && |again| > 0 && stride > 0
    requires |done[0]| > 0 && !IsBlank(Slice(done[0], 0, size))
    requires |again[0]| > 0 && !IsBlank(Slice(again[0], 0, size))
    ensures HasDuplicateId(DocChunksFrom(documentId, Appended(Appended(Start, done), again).textByPage, size, stride, 0))
  {
    var first := Appended(Start, done);
    var pages := Appended(first, again).textByPage;
    FallbackContinuesWithoutReset(done, again);
    AppendedPages(Start, done);
    AppendedPages(first, again);
    assert pages[0] == first.textByPage[0];
    assert pages[|done|].text == again[0];
    RepeatedPageDuplicatesIds(documentId, pages, size, stride, 0, |done|);
  }

  /** A page no longer than the stride and the window, and not blank, gives
      exactly one chunk, which is the whole page. */
  lemma ShortPageSingleChunk(documentId: string, page: PageRecord, q: int, size: int, stride: int)
    requires 0 < |page.text| <= stride && |page.text| <= size && !IsBlank(page.text)
    ensures PageChunks(documentId, page, q, size, WindowsFrom(|page.text|, stride, 0))
            == [MakeChunk(documentId, page, q, 0, page.text)]
  {
    var w := WindowsFrom(|page.text|, stride, 0);
    assert WindowsFrom(|page.text|, stride, stride) == [];
    assert w == [0];
    assert Slice(page.text, 0, size) == page.text;
  }

  // ---------------------------------------------------------------------
  // search: reshaping the vector store's answer
  // ---------------------------------------------------------------------

  /** What the vector store's `query` returns for one query embedding: lists of
      lists, one inner list per query; `distances` is absent when the key is
      missing. */
  datatype QueryResponse = QueryResponse(
    ids: seq<seq<string>>,
    documents: seq<seq<string>>,
    metadatas: seq<seq<ChunkMeta>>,
    distances: Option<seq<seq<real>>>)

  /** One entry of `formatted_results`. */
  datatype SearchHit = SearchHit(text: string, metadata: ChunkMeta, distance: Option<real>)

  /** The `where` filter: restrict to the given document ids when the list is
      present and non-empty, otherwise no filter. */
  function WhereFilter(documentIds: Option<seq<string>>): (w: Option<seq<string>>)
    ensures w.Some? <==> documentIds.Some? && |documentIds.value| > 0
    ensures w.Some? ==> w.value == documentIds.value
  {
    if documentIds.Some? && |documentIds.value| > 0 then documentIds else None
  }

  /** The response holds an entry of every indexed list for each returned id. */
  predicate ListsCoverIds(resp: QueryResponse)
    requires |resp.ids| > 0
  {
    var n := |resp.ids[0]|;
    && |resp.documents| > 0 && n <= |resp.documents[0]|
    && |resp.metadatas| > 0 && n <= |resp.metadatas[0]|
    && (resp.distances.Some? ==> |resp.distances.value| > 0 && n <= |resp.distances.value[0]|)
  }

  /** Whether the k-th entry of every list the loop indexes exists. */
  predicate EntryExists(resp: QueryResponse, k: int) {
    && |resp.documents| > 0 && 0 <= k < |resp.documents[0]|
    && |resp.metadatas| > 0 && k < |resp.metadatas[0]|
    && (resp.distances.Some? ==> |resp.distances.value| > 0 && k < |resp.distances.value[0]|)
  }

  /** The hit built from the k-th entry of the lists. */
  function HitAt(resp: QueryResponse, k: int): SearchHit
    requires EntryExists(resp, k)
  {
    SearchHit(resp.documents[0][k], resp.metadatas[0][k],
              if resp.distances.Some? then Some(resp.distances.value[0][k]) else None)
  }

  /** The formatting loop of `search`: one hit per returned id, in the
      store's order; none when no ids come back; an IndexError when a list
      the loop indexes is shorter than the ids. */
  method FormatResults(resp: QueryResponse) returns (r: Result<seq<SearchHit>>)
    ensures (|resp.ids| == 0 || |resp.ids[0]| == 0) ==> r == Success([])
    ensures |resp.ids| > 0 && |resp.ids[0]| > 0 && !ListsCoverIds(resp) ==> r == Failure(ResultIndexOutOfRange)
    ensures |resp.ids| > 0 && |resp.ids[0]| > 0 && ListsCoverIds(resp) ==>
              && r.Success? && |r.value| == |resp.ids[0]|
              && forall k :: 0 <= k < |r.value| ==> EntryExists(resp, k) && r.value[k] == HitAt(resp, k)
  {
    if |resp.ids| == 0 || |resp.ids[0]| == 0 {
      return Success([]);
    }
    var ids := resp.ids[0];
    var formatted: seq<SearchHit> := [];
    var i := 0;
    while i < |ids|
      invariant 0 <= i <= |ids| && |formatted| == i
      invariant i > 0 ==> EntryExists(resp, i - 1)
      invariant forall k :: 0 <= k < i ==> EntryExists(resp, k) && formatted[k] == HitAt(resp, k)
    {
      if |resp.documents| == 0 || i >= |resp.documents[0]| ||
         |resp.metadatas| == 0 || i >= |resp.metadatas[0]| {
        return Failure(ResultIndexOutOfRange);
      }
      var distance: Option<real> := None;
      if resp.distances.Some? {
        if |resp.distances.value| == 0 || i >= |resp.distances.value[0]| {
          return Failure(ResultIndexOutOfRange);
        }
        distance := Some(resp.distances.value[0][i]);
      }
      formatted := formatted + [SearchHit(resp.documents[0][i], resp.metadatas[0][i], distance)];
      i := i + 1;
    }
    r := Success(formatted);
  }

  // ---------------------------------------------------------------------
  // get_context_for_question: context and citations
  // ---------------------------------------------------------------------

  datatype Citation = Citation(documentId: string, page: int, start: int, end: int, preview: string)

  /** The separator between retrieved texts in the context. */
  const ContextSeparator := "\n\n"

  function HitTexts(hits: seq<SearchHit>): (r: seq<string>)
    ensures |r| == |hits| && forall k :: 0 <= k < |hits| ==> r[k] == hits[k].text
  {
    seq(|hits|, k requires 0 <= k < |hits| => hits[k].text)
  }

  /** The loop of `get_context_for_question` over the search results: the
      texts joined by a blank line in result order, and one citation per
      result, in the same order, carrying its metadata and the first 200
      characters of its text. */
  method GetContextForQuestion(results: seq<SearchHit>) returns (context: string, citations: seq<Citation>)
    ensures context == Join(HitTexts(results), ContextSeparator)
    ensures |citations| == |results|
    ensures forall k :: 0 <= k < |results| ==>
              && citations[k].documentId == results[k].metadata.documentId
              && citations[k].page == results[k].metadata.page
              && citations[k].start == results[k].metadata.charStart
              && citations[k].end == results[k].metadata.charEnd
              && citations[k].preview == results[k].text[..Min(PreviewLength, |results[k].text|)]
    ensures results == [] ==> context == "" && citations == []
  {
    var contextParts: seq<string> := [];
    citations := [];
    var i := 0;
    while i < |results|
      invariant 0 <= i <= |results|
      invariant contextParts == HitTexts(results[..i])
      invariant |citations| == i
      invariant forall k :: 0 <= k < i ==>
                  citations[k] == Citation(results[k].metadata.documentId, results[k].metadata.page,
                                           results[k].metadata.charStart, results[k].metadata.charEnd,
                                           results[k].text[..Min(PreviewLength, |results[k].text|)])
    {
      var metadata, text := results[i].metadata, results[i].text;
      contextParts := contextParts + [text];
      SlicePrefix(text, PreviewLength);
      citations := citations + [Citation(metadata.documentId, metadata.page, metadata.charStart,
                                         metadata.charEnd, Slice(text, 0, PreviewLength))];
      i := i + 1;
      assert HitTexts(results[..i]) == HitTexts(results[..i - 1]) + [text];
    }
    assert results[..i] == results;
    context := Join(contextParts, ContextSeparator);
  }

  /** Every retrieved text appears whole in the context, at the offset given
      by the texts and separators before it; a blank line stands between it
      and the next text; and the context is exactly as long as the texts and
      separators. */
  lemma ContextHoldsEveryResult(results: seq<SearchHit>, k: nat)
    requires k < |results|
    ensures var context := Join(HitTexts(results), ContextSeparator);
      var o := Offset(HitTexts(results), ContextSeparator, k);
      && o + |results[k].text| <= |context|
      && context[o..o + |results[k].text|] == results[k].text
      && (k + 1 < |results| ==>
            && Offset(HitTexts(results), ContextSeparator, k + 1) == o + |results[k].text| + 2
            && Offset(HitTexts(results), ContextSeparator, k + 1) <= |context|
            && context[o + |results[k].text|..Offset(HitTexts(results), ContextSeparator, k + 1)] == "\n\n")
      && |context| == Offset(HitTexts(results), ContextSeparator, |results| - 1) + |results[|results| - 1].text|
  {
    JoinPart(HitTexts(results), ContextSeparator, k);
    JoinLength(HitTexts(results), ContextSeparator);
    if k + 1 < |results| {
      JoinSeparator(HitTexts(results), ContextSeparator, k);
    }
  }
}
