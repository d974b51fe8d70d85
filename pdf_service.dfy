/**
 * The document store's text extraction: the parsers' per-page output is laid
 * out into one full text, with one "\n" after every page (the last included),
 * a page record per page and a table of page start offsets; and the lookup
 * from a character position back to a page number over that table.
 */
module PdfService {
  import opened Common
  import opened Strings

  /** One entry of `pages` in the stored metadata. */
  datatype PageRecord = PageRecord(page: int, text: string, charStart: int, charEnd: int)

  /** The stored metadata of a document. */
  datatype Metadata = Metadata(
    documentId: string,
    filename: string,
    text: string,
    pages: seq<PageRecord>,
    pageOffsets: seq<int>,
    totalChars: int)

  /** The four accumulators of `extract_text`: `text_by_page`, `full_text`,
      `char_offset` and `page_offsets`. */
  datatype Extraction = Extraction(
    textByPage: seq<PageRecord>,
    fullText: string,
    charOffset: int,
    pageOffsets: seq<int>)

  const Start := Extraction([], "", 0, [])

  /** What the primary parser (pdfplumber) delivered: the per-page results of
      `extract_text()` for the pages it got through (`None` for a page without
      text), and whether it raised partway. */
  datatype PrimaryParse = PrimaryParse(pages: seq<Option<string>>, crashed: bool)

  /** `page.extract_text() or ""` for each page of the primary parser. */
  function PrimaryTexts(raw: seq<Option<string>>): (r: seq<string>)
    ensures |r| == |raw|
    ensures forall i :: 0 <= i < |raw| ==> r[i] == if raw[i].Some? then raw[i].value else ""
  {
    seq(|raw|, i requires 0 <= i < |raw| => OrElse(raw[i], ""))
  }

  /** Sum of the lengths of the page texts. */
  function TotalLength(texts: seq<string>): nat
    decreases |texts|
  {
    if |texts| == 0 then 0 else TotalLength(texts[..|texts| - 1]) + |texts[|texts| - 1]|
  }

  // ---------------------------------------------------------------------
  // The page loop and its reference definition
  // ---------------------------------------------------------------------

  /** One pass of the page loop: the record for page number `num` with text
      `t` starts at the running offset; the text and a "\n" are appended. */
  function AddPage(acc: Extraction, num: int, t: string): Extraction {
    Extraction(
      acc.textByPage + [PageRecord(num, t, acc.charOffset, acc.charOffset + |t|)],
      acc.fullText + t + "\n",
      acc.charOffset + |t| + 1,
      acc.pageOffsets + [acc.charOffset])
  }

  /** The loop `for page_num, page in enumerate(pages, 1)` run over `texts`,
      continuing from the accumulators `acc`. */
  function Appended(acc: Extraction, texts: seq<string>): Extraction
    decreases |texts|
  {
    if |texts| == 0 then acc
    else AddPage(Appended(acc, texts[..|texts| - 1]), |texts|, texts[|texts| - 1])
  }

  /** The page loop of `extract_text`, with the four accumulators as locals. */
  method AppendPages(acc: Extraction, texts: seq<string>) returns (out: Extraction)
    ensures out == Appended(acc, texts)
  {
    var textByPage, fullText, charOffset, pageOffsets :=
      acc.textByPage, acc.fullText, acc.charOffset, acc.pageOffsets;
    var k := 0;
    while k < |texts|
      invariant 0 <= k <= |texts|
      invariant Extraction(textByPage, fullText, charOffset, pageOffsets) == Appended(acc, texts[..k])
    {
      assert texts[..k + 1][..k] == texts[..k];
      var pageNum, pageText := k + 1, texts[k];
      textByPage := textByPage + [PageRecord(pageNum, pageText, charOffset, charOffset + |pageText|)];
      fullText := fullText + pageText + "\n";
      pageOffsets := pageOffsets + [charOffset];
      charOffset := charOffset + |pageText| + 1;
      k := k + 1;
    }
    assert texts[..k] == texts;
    out := Extraction(textByPage, fullText, charOffset, pageOffsets);
  }

  function ToMetadata(documentId: string, e: Extraction): Metadata {
    Metadata(documentId, documentId + ".pdf", e.fullText, e.textByPage, e.pageOffsets, |e.fullText|)
  }

  /** `extract_text`.  The file's existence and the two parsers' outputs are
      inputs: `fallback` is what PyPDF2 yields, `None` when it raises too.
      When the primary parser raises partway, the fallback loop continues
      from the accumulators as the primary loop left them. */
  method ExtractText(documentId: string, fileExists: bool, primary: PrimaryParse,
                     fallback: Option<seq<string>>) returns (r: Result<Metadata>)
    ensures !fileExists ==> r == Failure(DocumentNotFound)
    ensures fileExists && !primary.crashed ==>
              r == Success(ToMetadata(documentId, Appended(Start, PrimaryTexts(primary.pages))))
    ensures fileExists && primary.crashed && fallback.None? ==> r == Failure(ExtractionFailed)
    ensures fileExists && primary.crashed && fallback.Some? ==>
              r == Success(ToMetadata(documentId,
                     Appended(Appended(Start, PrimaryTexts(primary.pages)), fallback.value)))
  {
    if !fileExists {
      return Failure(DocumentNotFound);
    }
    var acc := AppendPages(Start, PrimaryTexts(primary.pages));
    if primary.crashed {
      if fallback.None? {
        return Failure(ExtractionFailed);
      }
      acc := AppendPages(acc, fallback.value);
    }
    r := Success(ToMetadata(documentId, acc));
  }

  /** `get_metadata`: the stored metadata, or an error when none is stored. */
  function GetMetadata(store: map<string, Metadata>, documentId: string): (r: Result<Metadata>)
    ensures r.Success? <==> documentId in store
    ensures r.Success? ==> r.value == store[documentId]
    ensures r.Failure? ==> r.error == MetadataNotFound
  {
    if documentId in store then Success(store[documentId]) else Failure(MetadataNotFound)
  }

  // ---------------------------------------------------------------------
  // Layout invariant
  // ---------------------------------------------------------------------

  /** The accumulators describe a consistent layout: every page record's range
      holds exactly its text in the full text and is followed by "\n", pages
      follow each other with one separator character, the first starts at 0,
      the offset table lists the starts, and the running offset is the length
      of the full text. */
  ghost predicate WellLaidOut(e: Extraction) {
    var pages := e.textByPage;
    && |e.pageOffsets| == |pages|
    && e.charOffset == |e.fullText|
    && (|pages| == 0 ==> e.fullText == "")
    && (|pages| > 0 ==> pages[0].charStart == 0 && pages[|pages| - 1].charEnd + 1 == |e.fullText|)
    && (forall i :: 0 <= i < |pages| ==> RecordIn(pages[i], e.fullText))
    && (forall i :: 0 <= i < |pages| ==> e.pageOffsets[i] == pages[i].charStart)
    && (forall i :: 0 <= i < |pages| - 1 ==> pages[i + 1].charStart == pages[i].charEnd + 1)
    && Increasing(e.pageOffsets)
  }

  /** A page record's range holds exactly its text in f, and a "\n" follows. */
  predicate RecordIn(p: PageRecord, f: string) {
    && 0 <= p.charStart
    && p.charEnd == p.charStart + |p.text|
    && p.charEnd < |f|
    && f[p.charStart..p.charEnd] == p.text
    && f[p.charEnd] == '\n'
  }

  /** Appending to the text keeps every record in place. */
  lemma RecordInExtended(p: PageRecord, f: string, x: string)
    requires RecordIn(p, f)
    ensures RecordIn(p, f + x)
  {
    assert (f + x)[p.charStart..p.charEnd] == f[p.charStart..p.charEnd];
  }

  /** The offset table is strictly increasing. */
  predicate Increasing(t: seq<int>) {
    forall i, j :: 0 <= i < j < |t| ==> t[i] < t[j]
  }

  lemma AddPageKeepsLayout(e: Extraction, num: int, t: string)
    requires WellLaidOut(e)
    ensures WellLaidOut(AddPage(e, num, t))
  {
    var e' := AddPage(e, num, t);
    RecordsStayIn(e, num, t);
    OffsetsStayIncreasing(e, e'.pageOffsets);
  }

  /** Every record, the old ones and the new one, still holds its text
      followed by the page separator. */
  lemma RecordsStayIn(e: Extraction, num: int, t: string)
    requires WellLaidOut(e)
    ensures var e' := AddPage(e, num, t);
      forall i :: 0 <= i < |e'.textByPage| ==> RecordIn(e'.textByPage[i], e'.fullText)
  {
    var e' := AddPage(e, num, t);
    var n := |e.textByPage|;
    var f := e.fullText;
    var f' := e'.fullText;
    assert f' == f + (t + "\n");
    forall i | 0 <= i < n + 1 ensures RecordIn(e'.textByPage[i], f') {
      if i < n {
        assert e'.textByPage[i] == e.textByPage[i];
        RecordInExtended(e.textByPage[i], f, t + "\n");
      } else {
        assert f'[|f|..|f| + |t|] == t;
      }
    }
  }

  /** Adding the running offset, which lies past every recorded page, keeps
      the offset table strictly increasing. */
  lemma OffsetsStayIncreasing(e: Extraction, t': seq<int>)
    requires WellLaidOut(e) && t' == e.pageOffsets + [e.charOffset]
    ensures Increasing(t')
  {
    var n := |e.pageOffsets|;
    forall i, j | 0 <= i < j < n + 1 ensures t'[i] < t'[j] {
      if j == n {
        assert t'[i] == e.textByPage[i].charStart;
      }
    }
  }

  lemma {:induction false} AppendedKeepsLayout(e: Extraction, texts: seq<string>)
    requires WellLaidOut(e)
    ensures WellLaidOut(Appended(e, texts))
    decreases |texts|
  {
    if |texts| > 0 {
      AppendedKeepsLayout(e, texts[..|texts| - 1]);
      AddPageKeepsLayout(Appended(e, texts[..|texts| - 1]), |texts|, texts[|texts| - 1]);
    }
  }

  /** What the page loop adds: one record per text, numbered from 1 and
      holding that text, after the existing records; the full text grows by
      the texts and one separator each. */
  lemma {:induction false} AppendedPages(e: Extraction, texts: seq<string>)
    ensures |Appended(e, texts).textByPage| == |e.textByPage| + |texts|
    ensures Appended(e, texts).textByPage[..|e.textByPage|] == e.textByPage
    ensures forall j :: |e.textByPage| <= j < |Appended(e, texts).textByPage| ==>
              && Appended(e, texts).textByPage[j].page == j - |e.textByPage| + 1
              && Appended(e, texts).textByPage[j].text == texts[j - |e.textByPage|]
    ensures |Appended(e, texts).fullText| == |e.fullText| + TotalLength(texts) + |texts|
    decreases |texts|
  {
    if |texts| > 0 {
      var init := texts[..|texts| - 1];
      AppendedPages(e, init);
      var a := Appended(e, init);
      assert a.textByPage[..|e.textByPage|] == e.textByPage;
      var a' := Appended(e, texts);
      assert a'.textByPage == a.textByPage + [PageRecord(|texts|, texts[|texts| - 1], a.charOffset, a.charOffset + |texts[|texts| - 1]|)];
      assert a'.textByPage[..|e.textByPage|] == a.textByPage[..|e.textByPage|];
      assert a'.fullText == a.fullText + texts[|texts| - 1] + "\n";
      assert |a.textByPage| == |e.textByPage| + |texts| - 1;
      forall j | |e.textByPage| <= j < |a'.textByPage|
        ensures a'.textByPage[j].page == j - |e.textByPage| + 1
        ensures a'.textByPage[j].text == texts[j - |e.textByPage|]
      {
        if j < |a.textByPage| {
          assert init[j - |e.textByPage|] == texts[j - |e.textByPage|];
          assert a'.textByPage[j] == a.textByPage[j];
        }
      }
    }
  }

  // ---------------------------------------------------------------------
  // Properties of a single-pass extraction
  // ---------------------------------------------------------------------

  /** A single pass over the page texts produces one record per page,
      numbered 1..n in order with that page's text; each record's range is
      exactly its text in the full text, followed by "\n"; consecutive pages
      are one character apart, the first starts at 0; the offset table holds
      the starts and is strictly increasing; and the total length is the sum
      of the page lengths plus one per page. */
  lemma SinglePassLayout(texts: seq<string>)
    ensures var e := Appended(Start, texts);
      && WellLaidOut(e)
      && |e.textByPage| == |texts|
      && (forall i :: 0 <= i < |texts| ==> e.textByPage[i].page == i + 1 && e.textByPage[i].text == texts[i])
      && |e.fullText| == TotalLength(texts) + |texts|
  {
    AppendedKeepsLayout(Start, texts);
    AppendedPages(Start, texts);
  }

  /** The same facts, stated on the metadata that `extract_text` returns when
      the primary parser gets through the whole file. */
  lemma ExtractedMetadataLayout(documentId: string, raw: seq<Option<string>>, i: int)
    requires 0 <= i < |raw|
    ensures var m := ToMetadata(documentId, Appended(Start, PrimaryTexts(raw)));
      && |m.pages| == |raw| == |m.pageOffsets|
      && m.pages[i].page == i + 1
      && m.pages[i].text == PrimaryTexts(raw)[i]
      && m.pages[i].charEnd - m.pages[i].charStart == |m.pages[i].text|
      && 0 <= m.pages[i].charStart <= m.pages[i].charEnd < |m.text|
      && m.text[m.pages[i].charStart..m.pages[i].charEnd] == m.pages[i].text
      && m.text[m.pages[i].charEnd] == '\n'
      && m.pageOffsets[i] == m.pages[i].charStart
      && (i == 0 ==> m.pages[i].charStart == 0)
      && (i + 1 < |raw| ==> m.pages[i + 1].charStart == m.pages[i].charEnd + 1)
      && m.totalChars == |m.text| == TotalLength(PrimaryTexts(raw)) + |raw|
      && Increasing(m.pageOffsets)
  {
    SinglePassLayout(PrimaryTexts(raw));
  }

  /** When the primary parser raised after k >= 1 pages and the fallback
      parser read the file again, nothing was reset: the records of the k
      pages and the text they contributed stay as they were, the fallback's
      pages follow, numbered from 1 again (so page number 1 occurs twice,
      record k holding the fallback's first page), and their offsets
      continue after the first k pages instead of starting at 0.  The layout
      stays consistent with the full text. */
  lemma FallbackContinuesWithoutReset(done: seq<string>, again: seq<string>)
    requires |done| > 0 && |again| > 0
    ensures var e := Appended(Appended(Start, done), again);
      && WellLaidOut(e)
      && |e.textByPage| == |done| + |again|
      && e.textByPage[..|done|] == Appended(Start, done).textByPage
      && |Appended(Start, done).fullText| <= |e.fullText|
      && e.fullText[..|Appended(Start, done).fullText|] == Appended(Start, done).fullText
      && e.textByPage[0].page == 1
      && e.textByPage[|done|].page == 1
      && e.textByPage[|done|].text == again[0]
      && e.textByPage[|done|].charStart == TotalLength(done) + |done|
      && |e.fullText| == TotalLength(done) + |done| + TotalLength(again) + |again|
  {
    var first := Appended(Start, done);
    SinglePassLayout(done);
    AppendedKeepsLayout(first, again);
    AppendedPages(first, again);
    AppendedTextPrefix(first, again);
    var e := Appended(first, again);
    assert e.textByPage[0] == e.textByPage[..|done|][0] == first.textByPage[0];
    assert e.textByPage[|done| - 1] == first.textByPage[|done| - 1];
    assert e.textByPage[|done|].text == again[0];
  }

  /** Appending pages only extends the full text. */
  lemma {:induction false} AppendedTextPrefix(e: Extraction, texts: seq<string>)
    ensures |e.fullText| <= |Appended(e, texts).fullText|
    ensures Appended(e, texts).fullText[..|e.fullText|] == e.fullText
    decreases |texts|
  {
    if |texts| > 0 {
      var prev := Appended(e, texts[..|texts| - 1]);
      AppendedTextPrefix(e, texts[..|texts| - 1]);
      var t := texts[|texts| - 1];
      assert Appended(e, texts).fullText == prev.fullText + t + "\n";
      assert (prev.fullText + t + "\n")[..|e.fullText|] == prev.fullText[..|e.fullText|];
    }
  }

  // ---------------------------------------------------------------------
  // Offset-to-page lookup
  // ---------------------------------------------------------------------

  /** The scan of `get_page_for_char_position` from table index `i`: index i
      answers i+1 when pos lies between its offset and the next one, or, for
      the last entry, at or after its offset; a scan that finds nothing
      answers 1. */
  function PageFrom(offsets: seq<int>, pos: int, i: nat): (p: int)
    requires i <= |offsets|
    ensures 1 <= p <= (if |offsets| == 0 then 1 else |offsets|)
    ensures p > i || p == 1
    decreases |offsets| - i
  {
    if i == |offsets| then 1
    else if i + 1 < |offsets| && pos >= offsets[i] && pos < offsets[i + 1] then i + 1
    else if i + 1 == |offsets| && pos >= offsets[i] then i + 1
    else PageFrom(offsets, pos, i + 1)
  }

  /** The page number for a character position, over the stored offset table. */
  function PageForOffset(offsets: seq<int>, pos: int): (p: int)
    ensures 1 <= p <= (if |offsets| == 0 then 1 else |offsets|)
  {
    PageFrom(offsets, pos, 0)
  }

  /** `get_page_for_char_position`: fails only when no metadata is stored. */
  function GetPageForCharPosition(store: map<string, Metadata>, documentId: string, pos: int): (r: Result<int>)
    ensures r.Failure? <==> documentId !in store
    ensures r.Failure? ==> r.error == MetadataNotFound
    ensures r.Success? ==> 1 <= r.value <= (if |store[documentId].pageOffsets| == 0 then 1 else |store[documentId].pageOffsets|)
  {
    match GetMetadata(store, documentId)
    case Failure(e) => Failure(e)
    case Success(m) => Success(PageForOffset(m.pageOffsets, pos))
  }

  /** Reference definition: the number of table entries at or before pos. */
  function CountAtMost(t: seq<int>, pos: int): (c: nat)
    ensures c <= |t|
    decreases |t|
  {
    if |t| == 0 then 0
    else CountAtMost(t[..|t| - 1], pos) + (if t[|t| - 1] <= pos then 1 else 0)
  }

  /** In an increasing table the entries at or before pos form a prefix. */
  lemma {:induction false} CountSplits(t: seq<int>, pos: int)
    requires Increasing(t)
    ensures forall j :: 0 <= j < CountAtMost(t, pos) ==> t[j] <= pos
    ensures forall j :: CountAtMost(t, pos) <= j < |t| ==> pos < t[j]
    decreases |t|
  {
    if |t| > 0 {
      var init := t[..|t| - 1];
      assert Increasing(init);
      CountSplits(init, pos);
      if t[|t| - 1] <= pos {
        assert CountAtMost(init, pos) == |init|;
      }
      forall j | 0 <= j < |t| - 1 ensures t[j] == init[j] { }
    }
  }

  /** The scan stops exactly at the last entry at or before pos. */
  lemma {:induction false} ScanStopsAtSplit(t: seq<int>, pos: int, i: nat, k: nat)
    requires k <= |t|
    requires forall j :: 0 <= j < k ==> t[j] <= pos
    requires forall j :: k <= j < |t| ==> pos < t[j]
    requires i <= (if k == 0 then |t| else k - 1)
    ensures PageFrom(t, pos, i) == if k == 0 then 1 else k
    decreases |t| - i
  {
    if i < |t| && !(k >= 1 && i == k - 1) {
      ScanStopsAtSplit(t, pos, i + 1, k);
    }
  }

  /** For an increasing table the lookup answers the number of pages that
      start at or before pos, and 1 when there is none. */
  lemma LookupCountsStarts(t: seq<int>, pos: int)
    requires Increasing(t)
    ensures PageForOffset(t, pos) == if CountAtMost(t, pos) == 0 then 1 else CountAtMost(t, pos)
  {
    CountSplits(t, pos);
    ScanStopsAtSplit(t, pos, 0, CountAtMost(t, pos));
  }

  lemma {:induction false} CountMonotone(t: seq<int>, a: int, b: int)
    requires a <= b
    ensures CountAtMost(t, a) <= CountAtMost(t, b)
    decreases |t|
  {
    if |t| > 0 {
      CountMonotone(t[..|t| - 1], a, b);
    }
  }

  /** Over an increasing table the page number never decreases as the
      position grows. */
  lemma LookupMonotone(t: seq<int>, a: int, b: int)
    requires Increasing(t) && a <= b
    ensures PageForOffset(t, a) <= PageForOffset(t, b)
  {
    LookupCountsStarts(t, a);
    LookupCountsStarts(t, b);
    CountMonotone(t, a, b);
  }

  /** Over an increasing table, for a position at or after the first offset:
      page i+1 is the answer exactly when offsets[i] <= pos < offsets[i+1],
      and the last page exactly when pos >= the last offset.  Before the first
      offset, or over an empty table, the answer is 1. */
  lemma LookupExactlyWhen(t: seq<int>, pos: int, i: nat)
    requires Increasing(t)
    ensures |t| == 0 || pos < t[0] ==> PageForOffset(t, pos) == 1
    ensures i + 1 < |t| ==>
              ((PageForOffset(t, pos) == i + 1 && t[0] <= pos) <==> (t[i] <= pos < t[i + 1]))
    ensures |t| > 0 ==>
              ((PageForOffset(t, pos) == |t| && t[0] <= pos) <==> pos >= t[|t| - 1])
  {
    LookupCountsStarts(t, pos);
    CountSplits(t, pos);
  }

  /** On extracted metadata, every position of page i's range, its trailing
      "\n" included, resolves to index i+1; positions at or beyond the total
      length resolve to the last page. */
  lemma LookupOnLayout(e: Extraction, i: nat, pos: int)
    requires WellLaidOut(e) && i < |e.textByPage|
    ensures e.textByPage[i].charStart <= pos <= e.textByPage[i].charEnd ==>
              PageForOffset(e.pageOffsets, pos) == i + 1
    ensures pos >= |e.fullText| ==> PageForOffset(e.pageOffsets, pos) == |e.textByPage|
  {
    var t := e.pageOffsets;
    var n := |e.textByPage|;
    LookupExactlyWhen(t, pos, i);
    if e.textByPage[i].charStart <= pos <= e.textByPage[i].charEnd && i + 1 < n {
      assert t[i + 1] == e.textByPage[i].charEnd + 1;
    }
    LookupExactlyWhen(t, pos, n - 1);
  }
}
