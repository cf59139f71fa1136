# Retrieval-augmented summarisation: a Dafny model of its core

This project models the core of a retrieval-augmented question-answering
tool. Uploaded documents are split into overlapping word windows and
indexed, with deduplication, in a vector index and an in-memory keyword
(BM25) index. A small CSV registry maps document names to document ids. An
answering step turns the retrieved chunks into a prompt and post-checks the
model's answer.

The project proves properties of that model. Each module follows one source
file:

| module | file | what it models |
|---|---|---|
| `Basics` | — | `Option`, `Result`, `Min`/`Max`, concatenation of a sequence of sequences |
| `Text` | — | Python's `str.split()`, `re.findall(r"\w+", …)`, `" ".join`, `str.strip()`, `str.lower()`, `in` on strings and decimal rendering of numbers |
| `Chunker` | utils/file_loader.py | the extension dispatch and the word-window chunking loop of `load_file` |
| `Indexer` | vectorstore/indexer.py | the configuration check of `get_pinecone_index` and the dedup-and-batch loop of `upsert_chunks` |
| `KeywordStore` | vectorstore/bm25_store.py | `BM25Store._tokenize`, `add_chunks` and `search` |
| `Registry` | docs_loader.py | `save_documents` and `load_documents` |
| `Crew` | crew/rag_crew.py | `detect_intent`, the context cleaning, the refusals and the answer post-check of `summarize_chunks_task` |

Outside collaborators are modelled as parameters:

- The content hash and the embedding call are the function fields of `Indexer.Providers`.
- The vector index is a map from record id to record.
- The BM25 scoring function is the `KeywordStore.Scorer` parameter.
- The language model is a function from `Crew.Prompt` to an answer or an error message.

Files are modelled by their parsed contents: the registry file by its rows, or `None` when it does not exist.

Three behaviours of the code as written are worth knowing before reading the model:

- **Chunk count.** The loop emits one window for every start offset below n, which gives ⌈n / (chunk_size − overlap)⌉ windows for n words. When a window already reaches the end of the words, the next one lies entirely inside it (`Chunker.TrailingWindowInside`, `Chunker.TrailingWindowExample`).
- **Registry entries.** `save_documents` returns as soon as any row carries the id. A second name for a registered id is therefore never recorded (`Registry.SecondNameIgnored`).
- **Window parameters.** Nothing checks `overlap < chunk_size`. When the text has at least one word and `overlap >= chunk_size`, `start` never grows and the loop never ends. A blank text leaves the loop at once and gives no chunks whatever the overlap.

## Model

| member | source | states |
|---|---|---|
| `Chunker.ChunkWords` | utils/file_loader.py:31-49 | no words give no chunks for any overlap; otherwise the loop emits ⌈n / (chunk_size − overlap)⌉ chunks; chunk k is words `[k·step, k·step + chunk_size)` (clipped at the end) joined by single spaces, with id `"{name}_chunk_{k+1}"` |
| `Chunker.LoadFile` | utils/file_loader.py:14-49 | a name without one of the four supported extensions yields no chunks; otherwise the chunks are the windows of the whitespace-split text; a blank text yields no chunks, even when overlap ≥ chunk_size |
| `Chunker.StartIsProduct` | utils/file_loader.py:38-44 | after k iterations `start` is k·(chunk_size − overlap) |
| `Chunker.CountMeansStartInside` | utils/file_loader.py:40-44 | window k is emitted exactly when its start offset is below the word count |
| `Chunker.CeilDivIsCeiling` | utils/file_loader.py:40-44 | the number of windows is the least count whose starts pass the end of the words |
| `Chunker.WindowSize` | utils/file_loader.py:41-42 | every window holds between 1 and chunk_size words, and exactly chunk_size when it ends inside the text |
| `Chunker.ChunkTextWords` | utils/file_loader.py:32-42 | splitting a chunk's text on whitespace gives back exactly the words of its window |
| `Chunker.Coverage` | utils/file_loader.py:40-44 | every word i lies in window i / step, at offset i mod step |
| `Chunker.SharedOverlap` | utils/file_loader.py:41-44 | a full window's last `overlap` words are the next window's first `overlap` words |
| `Chunker.TrailingWindowInside` | utils/file_loader.py:40-44 | when a window reaches the end of the text, the next window is a suffix of it |
| `Chunker.TrailingWindowExample` | utils/file_loader.py:40-44 | ten words with chunk_size 10 and overlap 2 give two windows, the second being the last two words of the first |
| `Chunker.Lossless` | utils/file_loader.py:40-44 | the non-overlapping leading parts of the windows, concatenated in order, are exactly the words of the text |
| `Chunker.ChunkIdsDistinct` | utils/file_loader.py:43 | no two chunks of one file share an id |
| `Text.WordsOfJoin` | utils/file_loader.py:32-42 | `" ".join` of whitespace-free words, split again, gives back the words |
| `Indexer.DocLabel` | vectorstore/indexer.py:56 | the stored `doc_id` is the given id when it is non-empty and `"unknown"` when it is absent or empty |
| `Indexer.Apply` | vectorstore/indexer.py:61 | an upsert adds exactly the batch's ids, leaves every other record untouched and stores a batch record under each id |
| `Indexer.UpsertChunks` | vectorstore/indexer.py:14-68 | a missing or empty API key, then a missing or empty index name, is a configuration error, and only those; otherwise indexed + skipped is the number of chunks, every chunk's hash is in the index afterwards, and every upserted record carries the given `doc_id` or `"unknown"` |
| `Indexer.LoopKeepsInv` | vectorstore/indexer.py:43-62 | every iteration keeps the old records, the pending batch below batch_size, every flushed request at batch_size, the requests plus the batch equal to the records built for the embedded texts, and only new keys embedded |
| `Indexer.RunCounts` | vectorstore/indexer.py:43-68 | indexed + skipped is the number of chunks, and one text is embedded per indexed chunk |
| `Indexer.RunCalls` | vectorstore/indexer.py:53-66 | every upsert request holds 1 to batch_size records, all but the last exactly batch_size, and the requests in order are the records of the embedded texts |
| `Indexer.RunIndex` | vectorstore/indexer.py:45-66 | the final keys are the old keys plus the hashes of all texts; old records are unchanged; only texts whose hash was absent at the start are embedded; every new record holds its text's embedding and metadata |
| `Indexer.RunCovers` | vectorstore/indexer.py:45-66 | after the call every text's hash is a key of the index |
| `Indexer.RunLabels` | vectorstore/indexer.py:53-57 | every upserted record carries the document label |
| `Indexer.UpsertIdempotent` | vectorstore/indexer.py:47-51 | a second call with the same chunks on the resulting index indexes nothing, skips every chunk and sends no request |
| `Indexer.DuplicateCountedTwice` | vectorstore/indexer.py:47-62 | two copies of one new text are both counted as indexed and sent together in one request, while only one key is added |
| `Indexer.UpsertChunksCountsDuplicate` | vectorstore/indexer.py:47-58 | through `upsert_chunks` itself: two copies of one new chunk report (2, 0) but add one key |
| `Indexer.PendingAwareCountsDistinct` | vectorstore/indexer.py:47-58 | when the duplicate check also sees the pending batch, `indexed` equals the number of keys the call added |
| `Indexer.UpsertDistinct` | vectorstore/indexer.py:14-68 | the corrected call keeps every promise of `upsert_chunks` and reports as indexed exactly the number of records it added |
| `Indexer.UpsertDistinctSkipsDuplicate` | vectorstore/indexer.py:47-58 | the corrected call reports (1, 1) for two copies of one new chunk |
| `KeywordStore.Tokenize` | vectorstore/bm25_store.py:10-11 | every token is a non-empty run of word characters with no upper-case letter |
| `KeywordStore.TokenizeIgnoresCase` | vectorstore/bm25_store.py:10-11 | lower-casing the text first changes no token |
| `KeywordStore.TokenizeJoin` | vectorstore/bm25_store.py:10-11 | a list of lower-case word tokens joined by spaces tokenizes back to the same list |
| `KeywordStore.TokenizeIdempotent` | vectorstore/bm25_store.py:10-11 | re-tokenizing the space-joined tokens of a text gives the same tokens |
| `KeywordStore.NewStore` | vectorstore/bm25_store.py:5-8 | a new store is empty, consistent and not yet searchable |
| `KeywordStore.AddChunks` | vectorstore/bm25_store.py:13-19 | adding chunks appends them and their token lists after the existing ones, keeps the corpus aligned with the chunks and makes the store searchable |
| `KeywordStore.AddChunksTwice` | vectorstore/bm25_store.py:13-19 | adding `a` then `b` is the same as adding `a + b` |
| `KeywordStore.Rank` | vectorstore/bm25_store.py:28-32 | the ranking is a permutation of the positions, in descending score order, with ties kept in corpus order (a stable sort) |
| `KeywordStore.RankedDescending` | vectorstore/bm25_store.py:28-32 | of two ranked positions the earlier has the higher score, or the same score and the lower position |
| `KeywordStore.SliceEnd` | vectorstore/bm25_store.py:34 | `[:top_k]` on n elements keeps min(top_k, n) of them for a non-negative top_k, and n + top_k of them, or none when that is negative, for a negative top_k |
| `KeywordStore.Positive` | vectorstore/bm25_store.py:34 | the filter keeps exactly the entries with a positive score |
| `KeywordStore.SearchHits` | vectorstore/bm25_store.py:21-34 | no hits before any chunks were added; at most the slice's length; every hit has a positive score |
| `KeywordStore.HitsRanked` | vectorstore/bm25_store.py:28-34 | the hits are in ranking order |
| `KeywordStore.HitsComplete` | vectorstore/bm25_store.py:28-34 | a positive-scored chunk is returned exactly when it is among the first top_k positions of the ranking; one that is not returned ranks below every returned one, and with top_k at least the corpus size every positive-scored chunk is returned |
| `KeywordStore.Search` | vectorstore/bm25_store.py:21-34 | no results before any chunks were added; never more than top_k; every result is a stored chunk |
| `Registry.Save` | docs_loader.py:6-24 | an id already present leaves the file as it was; otherwise the row is appended after the existing rows and the file is created when missing; the id is present afterwards and unique ids stay unique |
| `Registry.SaveIdempotent` | docs_loader.py:14-15 | saving the same name and id twice is saving it once |
| `Registry.SecondNameIgnored` | docs_loader.py:14-15 | a second name for a registered id is not recorded |
| `Registry.Load` | docs_loader.py:26-31 | the mapping's names are exactly the names in the file's rows, with an empty mapping for a missing file |
| `Registry.LoadRowsLastWins` | docs_loader.py:31 | a name maps to the id of the last row carrying that name |
| `Registry.SaveThenLoad` | docs_loader.py:6-31 | after saving a new id, loading maps the name to it and leaves every other name unchanged |
| `Crew.DetectIntent` | crew/rag_crew.py:12-22 | the groups are tried in order negative, positive, process, compare: the instruction of the first group with a keyword in the lower-cased question is returned, and the default instruction exactly when no group has one |
| `Crew.DetectIntentIgnoresCase` | crew/rag_crew.py:13 | the intent does not depend on letter case |
| `Crew.DisadvantagesBeforeAdvantages` | crew/rag_crew.py:14-17 | a question containing "disadvantage" also matches the advantage keywords, yet gets the disadvantages instruction |
| `Crew.DetectIntentMonotone` | crew/rag_crew.py:12-22 | appending text to a question never moves it to a later instruction in the order of the checks |
| `Crew.Contribution` | crew/rag_crew.py:45-51 | a chunk adds nothing when its text is blank, and otherwise exactly its stripped text |
| `Crew.CleanContext` | crew/rag_crew.py:43-51 | the cleaned context is no longer than the chunks and is empty exactly when every chunk's text is blank |
| `Crew.CleanContextOne` | crew/rag_crew.py:44-51 | one chunk is cleaned into its contribution, so with `Crew.CleanContextAppend` the cleaned context is the chunks' contributions in chunk order |
| `Crew.CleanContextKeeps` | crew/rag_crew.py:44-51 | the stripped text of every non-blank chunk is in the cleaned context |
| `Crew.CleanContextFrom` | crew/rag_crew.py:44-51 | every entry of the cleaned context is the stripped text of some chunk |
| `Crew.CleanContextClean` | crew/rag_crew.py:50-51 | every entry is non-empty and unchanged by stripping |
| `Crew.CleanContextAppend` | crew/rag_crew.py:44-51 | cleaning works chunk by chunk: the cleaned concatenation is the concatenation of the cleaned parts |
| `Crew.CleanContextIdempotent` | crew/rag_crew.py:43-51 | cleaning an already cleaned context gives it back unchanged |
| `Crew.JoinClean` | crew/rag_crew.py:58 | clean entries joined by blank lines form a clean text |
| `Crew.Prepare` | crew/rag_crew.py:32-60 | absent or empty chunks, or only blank ones, give the refusal; otherwise the prompt carries the question (empty when absent), the cleaned entries joined by blank lines as a non-empty stripped context, the instruction for the question, and the word limit (200 when absent) |
| `Crew.PostCheck` | crew/rag_crew.py:101-107 | the answer is the refusal when the stripped reply is empty or mentions "no relevant information" in lower case, and the stripped reply otherwise; it is never empty |
| `Crew.RefusalIsStable` | crew/rag_crew.py:104-107 | the refusal is already stripped and contains the phrase the post-check looks for |
| `Crew.PostCheckIdempotent` | crew/rag_crew.py:101-107 | post-checking an answer a second time changes nothing |
| `Crew.Summarize` | crew/rag_crew.py:32-112 | no usable context gives the refusal; a model error gives `"Error generating response: "` followed by the message; a model answer gives the refusal when its stripped text is empty or mentions "no relevant information", and that stripped text otherwise |

## Left out

- Reading PDF, TXT, CSV and DOCX files, the Streamlit warning and the progress bar (utils/file_loader.py:15-28, 35-36, 46-48). The model starts from the file name and the extracted text.
- Chunker.ChunkWords: requires `0 < chunk_size`, and `overlap < chunk_size` when there is at least one word. With a word and `overlap >= chunk_size` the loop as written never ends. `chunk_size == 0` raises `ZeroDivisionError` at utils/file_loader.py:36, and a negative `chunk_size` would need Python's negative slice ends.
- Chunker.Coverage: also requires `overlap >= 0`, and so do `Chunker.SharedOverlap`, `Chunker.TrailingWindowInside` and `Chunker.Lossless`. A negative overlap makes the windows skip words, so these statements do not hold for it.
- SHA-256 (utils/hashing.py) and the embedding call (vectorstore/embeddings.py) are function parameters. Collisions of the hash are therefore not excluded.
- The Pinecone client itself is not modelled. `fetch` is modelled as key membership. `upsert` is modelled as a map update in which the last of two records with one id wins.
- The fetch, embedding and upsert calls never fail in the model.
- Exceptions such as a `KeyError` for a dict chunk without `"text"` are not modelled: every item has a text.
- The BM25Okapi formula is not modelled (vectorstore/bm25_store.py:19, 26). Scores come from an arbitrary function of the corpus, the query tokens and the position.
- KeywordStore.Search: says nothing about score values, only about the order they induce and their sign.
- A corpus on which BM25Okapi would fail, such as an empty one, is not modelled.
- Floating-point scores are modelled as reals, so NaN is left out.
- KeywordStore.Tokenize: only ASCII letters are lower-cased, and `\w` is taken as ASCII letters, digits and underscore. Python's Unicode case mapping and word classes are not modelled.
- Crew.DetectIntent: lower-cases ASCII letters only. Python's `str.lower()` also maps characters such as U+212A KELVIN SIGN to `k`, so a question can match a keyword in Python and not in the model.
- Crew.PostCheck: the same ASCII-only lower-casing applies to the search for "no relevant information". A reply that spells the phrase with such characters is refused by Python and kept by the model. `Crew.Summarize` inherits this.
- Unicode whitespace is taken to be the set `str.split()` and `str.strip()` use without arguments, as listed in `Text.IsSpace`.
- Reading and writing the CSV file (docs_loader.py:11-13, 21-24) is not modelled: the file is its rows. A row's fields are assumed present.
- The prompt text (crew/rag_crew.py:63-96) is not modelled. The prompt is a record of its four inputs: question, context, instruction and word limit.
- crew/rag_crew.py as written does not parse: the prompt assignment at line 63 is dedented out of the function. The model follows the evident intent, which is one function body.
- The retriever, the Pinecone client setup, the embeddings module, ROUGE evaluation and the Streamlit app are not part of this model.

## Findings

| source | as written | input that shows it | evidently intended | confidence | as-written member | corrected member |
|---|---|---|---|---|---|---|
| vectorstore/indexer.py:47-58 | the duplicate check only asks the index, which does not yet hold the records waiting in the current batch | two equal chunks, an index without their hash, batch_size 50: the call returns (2, 0), sends both records in one request and adds one key | a text repeated within one call is skipped like one already in the index, so `indexed` counts the records added | medium, not executed | `Indexer.UpsertChunksCountsDuplicate` | `Indexer.UpsertDistinct` |
