# NJDOT specification assistant: text pipeline model

This Dafny project models the deterministic text processing of a retrieval-augmented
question-answering assistant. The assistant answers questions about the 2019 NJDOT
Standard Specifications for Road and Bridge Construction. The model covers five stages:

- **Page cleaning** (`ParsePdf`): running header and footer lines are dropped. The remaining lines are stripped, empty ones removed, and the rest joined with single spaces. Whitespace runs are then collapsed.
- **Section segmentation** (`ExtractSections`): the page stream is read in one pass. The heading matches of each page are pooled and sorted by offset. A single open-section cursor opens, closes and fills sections. A final flush closes the last section at the last page.
- **Chunking and the index build** (`BuildIndex`):
  - each section's text is cut into overlapping windows of 256 whitespace tokens, stepping by 206;
  - each chunk becomes a metadata record whose `id` is its vector row;
  - an empty build is an error.
- **Prompt assembly for the hosted model** (`RagPipeline`):
  - out-of-range search rows are filtered out;
  - results are copied with their score;
  - the context block is formatted;
  - the `sources` and `debug` parts of the answer are built.
- **The console front end** (`ChatCli`):
  - hits are assembled with Python list indexing;
  - the context string is formatted;
  - input lines are classified (blank, `exit`/`quit`, question);
  - the sorted list of section ids used is computed.

The support modules are:

- `PyStr`: the Python `str` operations the pipeline uses (`isspace`, `strip`, `split()`, `splitlines`, `join`, `str(int)`, case-insensitive search).
- `Results`: `Option` and `Result` types.
- `Metadata`: the chunk record and reading its fields by key.

The following are parameters of the model:

- Nearest-neighbour search: an input sequence of `(score, row)` pairs, or a function from question to such a sequence.
- Embedding model: a function `string -> V`; the vector type `V` is opaque.
- Chat models: functions from the messages/prompt to a reply.

Each looping operation of the source is a Dafny method with a loop. The method is proved equal to a recursive specification function. The properties are lemmas about those functions.

## Model

| member | source | states |
|---|---|---|
| ParsePdf.CleanPageText | src/parse_pdf.py:17-25 | The filtering loop over `splitlines()` builds the stripped non-header lines. The result equals `CleanedText`, and it is trimmed, has no line break and no run of two whitespace characters. |
| ParsePdf.CleanShape | src/parse_pdf.py:20-25 | For lines without line breaks, the cleaned text has no surrounding whitespace, no line break and no whitespace run. |
| ParsePdf.CollapseWhitespaceFacts | src/parse_pdf.py:25 | `re.sub(r"\s{2,}", " ", s)` is empty iff `s` is. It begins and ends with whitespace iff `s` does. It has no two adjacent whitespace characters, and only adds spaces. |
| ParsePdf.SplitCollapse | src/parse_pdf.py:25 | Collapsing whitespace runs keeps the words: `split()` of the result equals `split()` of the input. |
| ParsePdf.CleanKeepsWords | src/parse_pdf.py:20-25 | The words of the cleaned text are exactly the words of the non-header, non-footer lines, in order. |
| ParsePdf.HeaderLineDropped | src/parse_pdf.py:14-22 | A line containing either pattern, case-insensitively, is skipped and contributes nothing wherever it stands. |
| ParsePdf.CleanEmptyIff | src/parse_pdf.py:20-25 | The cleaned text is empty iff every line is a header, a footer or blank (both directions). |
| ParsePdf.OnlyHeadersGiveEmpty | src/parse_pdf.py:20-25 | A page of only header, footer and blank lines cleans to `""`. |
| ParsePdf.BodyLinesMembers | src/parse_pdf.py:20-22 | The lines kept by the loop are in the input and are not headers or footers. Every such input line is kept. |
| ParsePdf.NonEmptyMembers | src/parse_pdf.py:24 | `l for l in lines if l` keeps only non-empty lines, and is empty iff all lines are empty. |
| PyStr.StripResultTrimmed | src/parse_pdf.py:23 | `line.strip()` has no leading or trailing whitespace. |
| PyStr.StripEmptyIff | src/parse_pdf.py:23 | `line.strip()` is empty iff the line is all whitespace. |
| PyStr.SplitJoin | src/parse_pdf.py:24 | `" ".join(ls).split()` is the concatenation of the words of each string of `ls`. |
| ExtractSections.Headings | src/extract_sections.py:28-29 | The pooled matches are sorted by offset and are a permutation of the H3, H2 and H1 matches, one per match. |
| ExtractSections.SortStable | src/extract_sections.py:29 | `sorted` is stable: the matches at any one offset keep their pooled order. |
| ExtractSections.OpenHeadings | src/extract_sections.py:31-37 | The inner loop over a page's matches leaves the cursor equal to `OnHeadings` of the old cursor. |
| ExtractSections.Segment | src/extract_sections.py:22-44 | The loop and the final flush return exactly `Segmentation(pages)`, with one section per heading match. |
| ExtractSections.SectionCount | src/extract_sections.py:31-44 | The number of sections equals the total number of heading matches on all pages. |
| ExtractSections.OnHeadingsShape | src/extract_sections.py:32-37 | A page's headings close the open section at that page. Every section opened on it but the last is emitted with empty text and `page_start == page_end ==` the page. The last one stays open with empty text. |
| ExtractSections.HeadingPage | src/extract_sections.py:31-39 | On a page with headings, the section left open holds exactly `" " + text`. |
| ExtractSections.BodyPages | src/extract_sections.py:38-39 | Pages without headings emit nothing and append `" " + text` to the open section. With no open section the cursor is unchanged. |
| ExtractSections.PreambleDiscarded | src/extract_sections.py:34-39 | Pages before the first heading do not change the output. |
| ExtractSections.FinalFlush | src/extract_sections.py:41-44 | With no heading the output is empty. Otherwise the last section ends at the last page's number. |
| ExtractSections.PageRanges | src/extract_sections.py:35-43 | For pages in ascending order, every section has `first page <= page_start <= page_end <= last page`. |
| BuildIndex.SplitIntoChunks | src/build_index.py:55-79 | The `while` loop returns exactly `Chunks(text)`: the joined tokens of each window of `Windows(n)`. |
| BuildIndex.WindowsShape | src/build_index.py:65-77 | The first window starts at 0 and the last ends at `n`. Every other window is full (256 tokens) and ends before `n`. The next one starts 50 tokens before its end. |
| BuildIndex.NoTokensNoChunks | src/build_index.py:60-62 | A text has no chunks iff it has no tokens. |
| BuildIndex.ChunkSize | src/build_index.py:69-73 | Every chunk has between 1 and 256 tokens. |
| BuildIndex.ChunkTextTrimmed | src/build_index.py:71-72 | The joined window is non-empty and `strip()` leaves it unchanged, so the `if chunk` test always passes. |
| BuildIndex.ChunkOverlap | src/build_index.py:68-77 | Consecutive chunks share exactly 50 tokens. The earlier one is full, and its last 50 tokens are the next one's first 50. |
| BuildIndex.WindowsCover | src/build_index.py:68-78 | No gaps: the first window then every later window minus its first 50 tokens gives back all tokens. |
| BuildIndex.ChunksCover | src/build_index.py:68-78 | The same coverage stated on the chunks: their re-split tokens, stitched at the overlaps, are `text.split()`. |
| BuildIndex.ChunkTokenListsAreSlices | src/build_index.py:70-71 | Re-splitting each chunk gives exactly the tokens of its window. |
| BuildIndex.ShortText | src/build_index.py:69-77 | A text of 1 to 256 tokens gives exactly one chunk, its tokens joined by single spaces. |
| BuildIndex.ThreeHundredTokenText | src/build_index.py:69-77 | A 300-token text gives exactly two chunks, tokens `[0, 256)` and `[206, 300)`. |
| BuildIndex.ThreeHundredTokens | src/build_index.py:69-77 | The windows of 300 tokens are `[0, 256)` and `[206, 300)`. |
| BuildIndex.EmbedChunks | src/build_index.py:96-109 | The inner loop appends one record per chunk, numbered from `idx`, with the section's id and pages. Vectors stay row-aligned with the metadata. |
| BuildIndex.Build | src/build_index.py:86-112 | The build fails iff there are no records. On success the metadata is `Records(sections)`, with row `k` the embedding of record `k`'s text. |
| BuildIndex.RecordIds | src/build_index.py:100-109 | Each record's `id` equals its position in the metadata. |
| BuildIndex.RecordsInherit | src/build_index.py:90-106 | Each record is a chunk of some section and carries that section's `section_id`, `page_start` and `page_end` unchanged. `n_tokens` is its chunk's token count, in 1..256. |
| BuildIndex.RecordsEmpty | src/build_index.py:111-112 | The build has no records iff no section has a token (both directions). |
| RagPipeline.RetrieveTopSections | src/rag_pipeline.py:86-94 | The loop returns exactly `TopSections(entries, pairs)`. |
| RagPipeline.TopSectionsExact | src/rag_pipeline.py:86-92 | Result `i` is the entry at the row of the `i`-th in-range pair, with that pair's score. The kept positions are strictly increasing (rank order) and are exactly the in-range pairs. |
| RagPipeline.TopSectionsBound | src/rag_pipeline.py:82-94 | No more results than pairs, so no more than `k`. |
| RagPipeline.TopSectionsAllInRange | src/rag_pipeline.py:86-92 | When every row is in range, result `j` is pair `j`'s entry with its score. |
| RagPipeline.BuildContextBlock | src/rag_pipeline.py:112-123 | The loop returns exactly `ContextBlock(sections)`: one `"[Section sid, pages ps–pe]\n" + text.strip()` per item, joined by `"\n\n"`. |
| RagPipeline.ContextBlockSmall | src/rag_pipeline.py:116-123 | No items give `""`. One item gives its segment alone. |
| RagPipeline.ContextBlockAppend | src/rag_pipeline.py:116-123 | One more item appends `"\n\n"` and its segment at the end: input order is output order. |
| RagPipeline.Sources | src/rag_pipeline.py:153-161 | One source per retrieved item. |
| RagPipeline.SourcesOfTop | src/rag_pipeline.py:153-161 | Source `i` carries exactly the id, page range and score of the entry retrieved at position `i`. |
| RagPipeline.AnswerQuestion | src/rag_pipeline.py:126-170 | The chat model receives the system prompt and the user content built from the context block. A model failure propagates. Otherwise the answer, the sources and `debug = {retrieved, k}` are returned unchanged. |
| ChatCli.PyIndex | src/chat_cli.py:65 | `metadata[idx]` succeeds iff `-n <= idx < n`, and reads row `n + idx` for negative `idx`. |
| ChatCli.Retrieve | src/chat_cli.py:57-68 | The loop returns exactly `Hits(metadata, pairs)`. |
| ChatCli.HitsExact | src/chat_cli.py:63-68 | `retrieve` succeeds iff every row is a valid Python index, and otherwise raises `IndexError`. On success there is one hit per pair, in order, each the record at its index with its score. |
| ChatCli.PaddingGivesLastRecord | src/chat_cli.py:65 | A padding row of -1 becomes a hit on the last record. |
| ChatCli.ContextFor | src/chat_cli.py:76-80 | The loop, reading the body under a given key, returns exactly `Context(hits, key)`. |
| ChatCli.BuildContext | src/chat_cli.py:71-80 | As written: `""` for no hits, `KeyError('content')` for any non-empty hit list. |
| ChatCli.ContentKeyFails | src/chat_cli.py:79 | Reading `h["content"]` fails on the first hit, because records store the chunk under `"text"`. |
| ChatCli.BuildContextByText | src/chat_cli.py:76-80 | Reading the body under `"text"`, the context never fails. It is each hit's header (section id, a vertical bar, then `pages ps-pe`), a newline and its text, in hit order, joined by `"\n\n----\n\n"`. |
| ChatCli.TextKeyContext | src/chat_cli.py:76-80 | Under `"text"` the parts of the context are exactly `TextParts(hits)`. |
| ChatCli.TextPartsAt | src/chat_cli.py:78-79 | Part `i` of the context is hit `i`'s header and text. |
| ChatCli.UsedSectionsExact | src/chat_cli.py:159-160 | The debug list is strictly increasing in Python string order. It holds exactly the section ids of the hits. |
| ChatCli.StrictlySorted | src/chat_cli.py:160 | An increasing list has no repeated id. |
| ChatCli.StrLessTotal | src/chat_cli.py:160 | Python's string `<` is total on distinct strings. |
| ChatCli.StrLessTransitive | src/chat_cli.py:160 | Python's string `<` is transitive. |
| ChatCli.ChatLoop | src/chat_cli.py:130-160 | The `while True` loop produces exactly the session `ChatRun(lines, ...)`. |
| ChatCli.TurnsAreQuestions | src/chat_cli.py:136-145 | Every answered question is stripped, non-empty and neither `exit` nor `quit`. |
| ChatCli.BlankLineSkipped | src/chat_cli.py:141-142 | A blank line changes nothing and reaches neither the search nor the model. |
| ChatCli.ExitStops | src/chat_cli.py:143-145 | `exit` or `quit`, in any letter case and with surrounding blanks, ends the session at once. |
| ChatCli.AsWrittenNeverAnswers | src/chat_cli.py:148-153 | As written, once the search returns anything, no question is answered. The session ends with `IndexError` or `KeyError('content')`. |
| Metadata.Lookup | src/build_index.py:100-107 | A record has a value exactly under the six keys the builder writes. |
| Metadata.TextKey | src/build_index.py:105 | The chunk is stored under `"text"`. There is no `"content"` key. |

## Left out

- The FAISS index build, write and search (src/build_index.py:114-121, src/rag_pipeline.py:76-84, src/chat_cli.py:61-62). They are a foreign library with float scoring. The search is an input of `(score, row)` pairs, or a function of the question.
- Scores and vectors are opaque type parameters, so no floating point is modelled.
- The embedding model is a function parameter. The question's embedding is inside the search parameter.
- `call_groq_chat` (src/llm_groq.py) is a function parameter returning the reply or a `ChatError`.
- `ask_ollama` (src/chat_cli.py:83-127) is a parameter `ask(question, context)`. It already turns network errors into a reply string. Its prompt text is not modelled.
- JSONL and file I/O are not modelled: loading pages, sections and metadata, all writers, and the cache of `get_section_entries`. The page record type stands for a loaded page.
- The console's printing is not modelled. Its input is a sequence of lines, and end of input stands for `EOFError`/`KeyboardInterrupt`.
- The regular expressions H1, H2 and H3 are not interpreted. Each page carries the `(offset, code)` matches each pattern found.
- The header and footer searches are case-insensitive with ASCII folding only. Python's `re.I` also folds a few non-ASCII letters, such as U+017F and U+212A; the model misses that.
- For `q.lower() in {"exit", "quit"}`, ASCII lowering decides the comparison exactly.
- `dict.get` defaults are not modelled: the records the builder reads always carry every key. Page numbers are integers.
- PDF page reading in src/parse_pdf.py:28-33 is not modelled.
- Streamlit UI, the console inspector and table extraction are not modelled. They are outside the text pipeline; src/app.py, src/inspect_chunks.py and src/extract_tables.py are not part of this model.
- The section text follows the code: it is the concatenation of `" " + page text` for every page of the section, headings included.
- Page order is not checked, as in the code. The page-range lemma assumes ascending pages.

## Findings

| source | as written | input that shows it | evidently intended | confidence | as-written member | corrected member |
|---|---|---|---|---|---|---|
| src/chat_cli.py:79 | `build_context` reads each hit's body as `h["content"]` | any non-empty hit list from records built by src/build_index.py, which store the chunk under `"text"` | read `h["text"]`, so the context holds each chunk | not executed | ChatCli.ContentKeyFails | ChatCli.BuildContextByText |
| src/chat_cli.py:64-65 | `retrieve` indexes `metadata[idx]` with no range check | FAISS returns row -1 when the index has fewer than `k` rows, and `metadata[-1]` is the last record | skip rows outside `[0, len(metadata))`, as src/rag_pipeline.py:88-89 does | not executed | ChatCli.PaddingGivesLastRecord | RagPipeline.TopSectionsExact |
