# Contract analyser: deterministic core

This project models the deterministic core of a contract-analysis service in
Dafny, and proves what that core promises.

The service ingests PDF contracts, indexes their text for retrieval, answers
questions and audits contracts for risky clauses. An evaluation script scores
predicted answers. The model covers five parts:

- **Text extraction bookkeeping** (`PdfService`). The parsers' page texts are
  laid out into one full text with a `"\n"` after every page, the last one
  included. Each page gets a record (`page`, `text`, `char_start`, `char_end`)
  and an entry in the table of page start offsets. The loop is a method over
  the four accumulators.
  - When the primary parser raises partway, the fallback parser's loop
    continues from the accumulators as they were left.
  - The lookup from a character position back to a page number is a scan over
    the offset table.
- **Chunking and context assembly** (`RagService`).
  - A sliding window of `chunk_size` characters advances by
    `chunk_size - chunk_overlap` within each page. Whitespace-only windows are
    skipped.
  - Each chunk records its absolute offsets and the id
    `"{document}_page{page}_chunk{start}"`.
  - The vector store's query response is reshaped into hits. The hits' texts
    are joined by a blank line into the question context, with one citation
    per hit.
- **The notice-period pattern** (`NoticePattern`). The auto-renewal rule
  applies the regular expression `(\d+)\s*(?:day|days|d)` with `re.findall`.
  It is modelled as an explicit left-to-right scan. The scan is proved to
  return exactly the "notices" of the text: every maximal digit run followed
  by optional whitespace and a `d`, in text order.
- **Rule-based extraction and audit** (`LlmService`). This covers:
  - the keyword fallback of field extraction;
  - the four rule checks of the audit (auto-renewal with short notice,
    unlimited liability, missing liability cap, broad indemnity), which are
    what the audit returns when no language-model client is configured;
  - the line-window evidence finder.
- **The evaluation scorer** (`RunEval`). Blank lines are skipped. Gold and
  predicted rows are indexed by id with Python dictionary semantics: first
  occurrence fixes a key's position, and the last row wins. Each gold question
  is then scored as a hit or a miss.

Shared definitions:

- `Strings` models the Python string operations the core uses: `lower()`,
  `strip()`, `isspace()`, `in`, slicing, `split`, `join`, `int()` (without its
  digit-count limit) and `str()`.
- `Json` models the dynamic values of the extracted-field dictionary and
  Python truthiness.
- `Common` holds `Option`, `Result` and the error outcomes.

Two behaviours of the code are modelled as written and stated as lemmas:

- After a partial primary parse, the fallback does not reset the accumulators.
  Page 1 is then recorded twice, once with each parser's text, and the
  fallback's offsets continue after the pages already read. Indexing such a
  document emits the same chunk id twice whenever both first windows are
  non-blank, whatever their texts (`FallbackContinuesWithoutReset`,
  `FallbackDuplicatesChunkIds`).
- The auto-renewal rule is gated on the literal `"30"` occurring in the text.
  A contract that renews automatically with "10 days notice" and never writes
  "30" gets no finding (`ShortNoticeWithoutThirtyIgnored`). The program's own
  text promises such findings: the audit endpoint's docstring says it
  "detects issues like auto-renewal with short notice"
  (app/routers/audit.py:21), and the rule's comment reads "check auto-renewal
  with short notice" (app/services/llm_service.py:149). The model follows the
  code.

The liability-cap rule fires only for a non-empty dictionary. A `None` cap
gives no finding, and the model follows the code there too.

## Model

| member | source | states |
|---|---|---|
| PdfService.AppendPages | app/services/pdf_service.py:41-51 | the page loop leaves the accumulators exactly as the page-by-page specification `Appended` describes |
| PdfService.ExtractText | app/services/pdf_service.py:27-75 | a missing upload is an error. Otherwise the metadata is the layout of the primary parser's pages (`None` read as `""`). After a crash, the fallback's pages are laid out continuing from the primary loop's state, and an error results when the fallback fails too |
| PdfService.GetMetadata | app/services/pdf_service.py:84-91 | succeeds exactly when metadata is stored for the id, with that metadata; otherwise a not-found error |
| PdfService.AddPageKeepsLayout | app/services/pdf_service.py:43-51 | one more page keeps the layout invariant: records hold their text followed by "\n", pages are one apart from 0 on, offsets equal the starts and strictly increase, and the running offset is the text length |
| PdfService.AppendedPages | app/services/pdf_service.py:41-51 | the loop adds one record per text after the existing ones, numbered from 1 with that text, and grows the text by the texts plus one separator each |
| PdfService.SinglePassLayout | app/services/pdf_service.py:34-51 | a single pass yields the consistent layout, pages numbered 1..n in order with their texts, and total length = sum of page lengths + number of pages |
| PdfService.ExtractedMetadataLayout | app/services/pdf_service.py:41-74 | on returned metadata: char_end - char_start = len(text), full_text[char_start:char_end] = text followed by "\n", the first page starts at 0, consecutive pages are one apart, page_offsets[i] = char_start, the table strictly increases, total_chars = len(full_text) = sum of lengths + n |
| PdfService.FallbackContinuesWithoutReset | app/services/pdf_service.py:52-66 | after a partial primary parse the fallback does not reset: the first k records and the full text they produced stay unchanged, record k is page number 1 again holding the fallback's first page text, its offset continues after the first k pages, and the layout stays consistent |
| PdfService.PageForOffset | app/services/pdf_service.py:98-104 | the lookup answer lies in [1, max(1, n)] |
| PdfService.GetPageForCharPosition | app/services/pdf_service.py:93-104 | fails exactly when no metadata is stored; otherwise a page number in [1, max(1, n)] |
| PdfService.LookupCountsStarts | app/services/pdf_service.py:98-104 | for a strictly increasing table the scan answers the number of offsets at or before the position, or 1 when there is none (an independent reference definition) |
| PdfService.LookupMonotone | app/services/pdf_service.py:98-104 | over a strictly increasing table the page number never decreases as the position grows |
| PdfService.LookupExactlyWhen | app/services/pdf_service.py:98-104 | the answer is i+1 exactly when offsets[i] <= pos < offsets[i+1], the last page exactly when pos >= the last offset, and 1 before the first offset or for an empty table |
| PdfService.LookupOnLayout | app/services/pdf_service.py:93-104 | on extracted metadata every position of page i's range, its "\n" included, maps to page i+1, and positions past the end map to the last page |
| RagService.ChunkIdInjective | app/services/rag_service.py:51 | for a fixed document id, the chunk id determines the page number and the window start |
| RagService.WindowsAreMultiples | app/services/rag_service.py:43 | the window starts are exactly 0, s, 2s, ...: each one below the page length, and the next multiple past the last one at or beyond it |
| RagService.WindowsBounds | app/services/rag_service.py:43 | window starts lie below the page length and strictly increase |
| RagService.IndexDocument | app/services/rag_service.py:26-59 | missing metadata is an error; otherwise the batch is the chunking of the stored pages |
| RagService.ChunkPages | app/services/rag_service.py:33-59 | the nested loop yields a stride-0 error when some page exists; otherwise it yields the three parallel lists of the document's chunks in page order |
| RagService.ChunkPage | app/services/rag_service.py:43-59 | the window loop appends the page's chunks, in window order, to the three lists |
| RagService.BatchParallel | app/services/rag_service.py:52-59 | ids, texts and metadatas are as long as the chunk list and entry k of each belongs to chunk k |
| RagService.ChunkInPage | app/services/rag_service.py:44-59 | a kept chunk is page_text[i:i+chunk_size], non-empty, at most chunk_size long, with start = page start + i and end = start + len(chunk), inside the page's range; the min clamp changes nothing |
| RagService.ChunksWithinPages | app/services/rag_service.py:37-59 | every chunk of a document with consistent page records lies within one page's range and is that page's text at its window |
| RagService.ChunksCoverWindows | app/services/rag_service.py:43-46 | conversely, every window start `range(0, len(page_text), stride)` gives, on every page, whose slice `page_text[i:i+chunk_size]` is not blank yields its chunk in the document's chunk list |
| RagService.ChunkTextInFullText | app/services/rag_service.py:48-49 | on extracted metadata every chunk's text is exactly the full text between its recorded start and end |
| RagService.ShortPageSingleChunk | app/services/rag_service.py:43-46 | a non-blank page no longer than the stride and the window gives exactly one chunk, the whole page |
| RagService.ChunksOrdered | app/services/rag_service.py:37-43 | chunks come in page order, and within a page by ascending window start |
| RagService.ChunkIdsDistinct | app/services/rag_service.py:51-53 | when page numbers are distinct, no two chunks share an id |
| RagService.SinglePassChunkIdsDistinct | app/services/rag_service.py:51-53 | chunking a single-pass extraction gives pairwise distinct ids |
| RagService.RepeatedPageDuplicatesIds | app/services/rag_service.py:51-53 | two records with the same page number whose first windows are both non-blank yield a repeated id, whatever their texts |
| RagService.FallbackDuplicatesChunkIds | app/services/rag_service.py:51-53 | after a partial primary parse and a fallback pass, the batch holds a repeated chunk id whenever both parsers' first pages have a non-blank first window, even when their texts differ |
| RagService.WhereFilter | app/services/rag_service.py:78-80 | a filter exists exactly when the document-id list is present and non-empty, and then it is that list |
| RagService.FormatResults | app/services/rag_service.py:90-99 | no ids gives no hits; otherwise one hit per returned id in order, with its text, metadata and distance (None when distances are absent); an index error when a list is shorter than the ids |
| RagService.GetContextForQuestion | app/services/rag_service.py:105-124 | the context is the texts joined by "\n\n" in result order; one citation per result in the same order, with its metadata and text[:200]; empty results give "" and no citations |
| RagService.ContextHoldsEveryResult | app/services/rag_service.py:123 | every result text appears whole in the context at the offset of the texts and separators before it, "\n\n" stands between it and the next text, and the context's length is the texts' plus the separators' |
| NoticePattern.MatchAtIff | app/services/llm_service.py:156 | the pattern matches at p exactly when the text there splits into digits, whitespace and a `d`, and the only such split is the greedy one |
| NoticePattern.FindAllNotices | app/services/llm_service.py:156-157 | `re.findall`'s scan returns exactly the notices of the text (maximal digit runs followed by optional whitespace and `d`), in order |
| NoticePattern.FindAll | app/services/llm_service.py:157 | every captured group is a non-empty run of ASCII digits |
| LlmService.BasicExtraction | app/services/llm_service.py:62-83 | all eleven fields are present; parties and signatories are empty lists; auto_renewal is True exactly when "auto" and "renew" occur in the lowercased text, else None; every other field is None |
| LlmService.FindEvidence | app/services/llm_service.py:259-270 | the loop returns the window around the first line holding every keyword, or "Evidence not found in text" |
| LlmService.FirstLineWith | app/services/llm_service.py:262-264 | the index found is the first line whose lowercase holds every keyword; none when no line does |
| LlmService.EvidenceLines | app/services/llm_service.py:262-269 | for a first matching line i, the evidence splits back into lines[max(0,i-2):min(n,i+3)], which holds line i and at most five lines |
| LlmService.EvidenceInText | app/services/llm_service.py:266-269 | the evidence for a matching line is a substring of the text |
| LlmService.EvidenceMissing | app/services/llm_service.py:270 | when no line holds every keyword the evidence is "Evidence not found in text" |
| LlmService.FirstBelow | app/services/llm_service.py:158-159 | the first number whose integer value is below the bound; none when every number is at least the bound |
| LlmService.CheckAutoRenewal | app/services/llm_service.py:150-168 | the block adds at most the one auto-renewal finding, stopping at the first notice below 30 |
| LlmService.AutoRenewalRule | app/services/llm_service.py:150-168 | a finding exactly when auto_renewal is truthy, "30" is in the text, "day" is in the lowercased text and some notice number is below 30; it quotes the leftmost such number |
| LlmService.ShortNoticeWithoutThirtyIgnored | app/services/llm_service.py:153 | a text without the character '3' that states " 10 d" has a ten-day notice below 30 yet yields no auto-renewal finding |
| LlmService.TenDays | app/services/llm_service.py:156-159 | " 10 d" holds a notice whose number, 10, is below 30 |
| LlmService.CheckUnlimitedLiability | app/services/llm_service.py:171-180 | the block adds the unlimited-liability finding exactly as the rule says |
| LlmService.UnlimitedLiabilityRule | app/services/llm_service.py:171-180 | the high-severity liability finding is present exactly when "unlimited" and "liability" occur in the lowercased text |
| LlmService.CheckLiabilityCap | app/services/llm_service.py:183-194 | the block adds the missing-cap finding exactly as the rule says |
| LlmService.LiabilityCapRule | app/services/llm_service.py:183-194 | the medium finding is present exactly when liability_cap is a non-empty dictionary whose amount is absent, None or zero; a missing or None cap gives none |
| LlmService.CheckBroadIndemnity | app/services/llm_service.py:197-208 | the block adds the broad-indemnity finding exactly as the rule says |
| LlmService.BroadIndemnityRule | app/services/llm_service.py:197-208 | the indemnity finding is present exactly when indemnity is a non-empty string containing all, any, every or unlimited case-insensitively |
| LlmService.IndemnityEvidence | app/services/llm_service.py:205 | the indemnity evidence is the clause's first min(len, 200) characters |
| LlmService.AuditContract | app/services/llm_service.py:145-215 | without a client the findings are the four rules' outputs in the fixed order |
| LlmService.RankedConcat | app/services/llm_service.py:147-208 | four rule outputs appended in order give at most four findings in strictly increasing rule order, without range or page, high severity except the missing cap |
| LlmService.RuleFindingsShape | app/services/llm_service.py:147-215 | at most four findings, in the order auto-renewal, unlimited liability, missing cap, broad indemnity (at most one each), none with char_range or page, all high except the medium missing-cap finding |
| LlmService.RuleFired | app/services/llm_service.py:147-215 | each rule's finding appears in the audit exactly when that rule fired |
| LlmService.RankedConcatPresence | app/services/llm_service.py:147-208 | in the appended outputs, a rule's finding is present exactly when that rule produced one |
| LlmService.AuditAfterBasicExtraction | app/services/llm_service.py:62-83 | auditing the keyword fallback's fields never reports a missing cap or broad indemnity, and reports auto-renewal only when the text mentions "auto" and "renew" |
| RunEval.NonBlankLines | eval/run_eval.py:16-18 | every kept line is non-blank, and every non-blank line is kept |
| RunEval.NonBlankLinesAppend | eval/run_eval.py:16-18 | filtering preserves order: the lines kept from a + b are those kept from a, then those kept from b |
| RunEval.LoadLines | eval/run_eval.py:14-18 | the loop keeps exactly the non-blank lines, in file order |
| RunEval.IndexRowsValid | eval/run_eval.py:22-23 | the comprehension gives a well-formed dictionary whose keys are exactly the row ids |
| RunEval.BuildIndex | eval/run_eval.py:22-23 | the loop builds the dictionary the comprehension describes |
| RunEval.LastRowWins | eval/run_eval.py:22-23 | the row stored under an id is the last row with that id |
| RunEval.KeysInFirstOccurrenceOrder | eval/run_eval.py:22-23 | every key occurs among the ids, and the keys come in strictly increasing order of first occurrence, hence distinct |
| RunEval.DistinctKeysCount | eval/run_eval.py:25 | a list of distinct keys is as long as the set of them |
| RunEval.HitsPlusMissed | eval/run_eval.py:29-35 | every question is counted once, as a hit or as missed |
| RunEval.MissedExactly | eval/run_eval.py:29-35 | a question is missed exactly when it is among the questions and not a hit |
| RunEval.MissedKeepsOrder | eval/run_eval.py:29-35 | when the questions come in first-occurrence order of the ids, so do the missed ones, which are therefore distinct |
| RunEval.Score | eval/run_eval.py:26-35 | the loop counts the hits and lists the misses in gold order, and hits + misses = the number of gold ids |
| RunEval.Evaluate | eval/run_eval.py:21-37 | total = number of distinct gold ids = hits + len(missing); hits is the number of hits and missing the list of misses over the gold keys in dictionary order; missing follows the first occurrence of its ids in the gold file and has no repeats; an id is missing exactly when it is a gold id whose lowercased expected substring is absent from the lowercased answer ("" when there is no prediction); empty gold gives 0 and [] |

## Left out

- File I/O, uuid generation and the JSON dump and load of the metadata are not modelled. The page texts of both parsers and the stored metadata are inputs.
- The PDF parsers are not modelled. pdfplumber is an input list of per-page results plus a "raised partway" flag. PyPDF2 is an optional list of page strings, `None` when it raises too. A PyPDF2 page that returns `None` (a TypeError in `len`) is not modelled.
- The embedding model and the vector store are not modelled. `add`, `query` and the nearest-neighbour ranking belong to foreign libraries. `IndexDocument` returns the batch handed to `add`, and `FormatResults` takes the query response as an input.
- The unused `text` parameter of `index_document` is not modelled.
- RagService.ChunkPages: batch ids are `ChunkKey` triples (document, page, window start) rather than strings. `KeyText` renders the exact id string, and the id lemmas are stated on those strings.
- The language-model calls are not modelled: `extract_fields`' client branch, `answer_question`, the streaming variant and `_llm_audit` (app/services/llm_service.py:211-213). `AuditContract` is the audit with no client configured.
- The audit router's finding normalisation and the other routers, the app entry point, metrics and configuration are not modelled. The chunk defaults 1000 and 200 are parameters.
- The float `score` of the evaluation and all printing are not modelled. Only the integer counts and the missing list are.
- NoticePattern.FindAll: `int()` on a captured digit run is modelled as never failing. CPython 3.11 and later raise ValueError for a run of more than 4300 digits (the integer string-conversion limit), which would escape from the audit; that limit is not modelled.
- `lower()` and digit tests are ASCII-only. `isspace()` covers the ASCII and Unicode whitespace characters. Python's full Unicode case mapping and Unicode digits in `\d` are not modelled.
- RunEval.Evaluate: rows are typed records. A row missing "id" or "expected_substring" raises in the source, and this is not modelled. An "answer" that is present but null (which raises on `.lower()`) is not modelled; an absent answer is `""`.
- Unparseable JSON lines, which raise in `json.loads`, are not modelled.
- Fields are modelled as JSON values with Python truthiness. A float amount compares to 0 exactly as a real number, and values outside JSON are not modelled.
