# Pots-EDS-Experten: a verified model of its own logic

Pots-EDS-Experten is a chat assistant for medical information about EDS and POTS. It indexes a folder of PDF documents into a vector store. It answers each question from the retrieved passages, a web search and a generative model. Nearly all of that is done by calls into external services. This project models the parts of `app.py` that the application itself decides, and proves properties about them:

- **Segmentation** (module `Chunking`). The extracted text of a document is cut into windows 2000 characters wide that start every 1500 characters. One window starts at each offset below the text's length. A window that runs past the end is cut short, as a Python slice is.
- **Segment ids and metadata** (module `SegmentIds`). Window `i` of file `f` gets the id `f + "_" + str(i)` and the metadata `{source: f}`. Here `str(i)` is rendered in decimal with no leading zero.
- **Ingest-once** (module `Ingestion`). The knowledge store is an abstract keyed collection: a map from id to (window text, metadata), held in class `Store`. `InitializeRag` walks the folder listing only when the store is empty and the folder exists. For each `.pdf` file it accumulates the pages' text, each page followed by a newline. It then cuts the text into windows and adds them. `main` calls `initialize_rag` on every run of the script (app.py:165), so the empty-store guard is what makes repeated runs harmless (`Ingestion.IngestIdempotent`).
- **Cited sources** (module `Retrieval`). The up to 3 hits of the similarity query are reduced to the list of their source file names, each named once.
- **Conversation log** (module `Conversation`). The session's message list in class `Session`. One run of the script either appends the submitted question as a user turn, or answers a pending user turn with exactly one assistant turn.

In three places the code behaves differently from what a reader might expect; the model follows the code:

- **Chunk count.** The code's `range(0, len(text), 1500)` yields `ceil(L/1500)` windows and none for empty text. The formula one might expect, `ceil(max(L-2000,0)/1500)+1`, gives one window fewer whenever the code's last window lies entirely inside the previous one, and one window for the empty text. A 2000-character text gets two windows, and the second lies entirely inside the first one's overlap (`Chunking.TailInsideOverlap`).
- **A PDF that fails.** The loop over the files (app.py:66-79) has no exception handler. A PDF the reader fails on is therefore not skipped. Neither is a PDF without pages: its text is empty, so `collection.add` receives three empty lists, and the store rejects those with an exception. Either exception ends `initialize_rag`, and the files processed before it stay in the store. If a file was added before it, the next start sees a non-empty store and never ingests the rest. Otherwise the store is still empty, and every start raises again on the same file, so the chat part of `main` is never reached. `Ingestion.IngestResult` and `Ingestion.IngestOutcome` model exactly this, and `Ingestion.RestartAfterIngest` proves both cases.
- **Generation errors.** `perform_ai_analysis` has no exception handler around `generate_content` (app.py:159). A failing analysis is therefore not turned into an answer text. It ends the run, and no assistant turn is appended. `analyze` returns `None` in that case.

## Model

| member | source | states |
|---|---|---|
| `Chunking.ChunksFrom` | app.py:75 | definition: the windows starting at start, start+1500, ... below L, each text[o:o+2000] clipped to L; its properties are ChunkCountIsCeiling, ChunkAt, ChunkOverlap, Reassemble |
| `Chunking.Chunks` | app.py:75 | definition: the chunk comprehension, the windows from offset 0; its properties are ChunkCountIsCeiling, ChunkAt, ChunkOverlap, TailInsideOverlap, Reassemble |
| `Chunking.ChunkCount` | app.py:75 | the count is zero exactly for the empty text and is otherwise the ceiling of L/1500: 1500*(n-1) < L <= 1500*n |
| `Chunking.ChunkCountIsCeiling` | app.py:75 | the comprehension yields ChunkCount(L) windows, none exactly when the text is empty |
| `Chunking.ChunkAt` | app.py:75 | window i is text[1500*i .. min(1500*i+2000, L)], starts inside the text, and is non-empty and at most 2000 long |
| `Chunking.ChunkOverlap` | app.py:75 | window i from offset 1500 on is a prefix of window i+1; when window i is full, its last 500 characters equal the first 500 of window i+1 |
| `Chunking.TailInsideOverlap` | app.py:75 | a text of exactly 2000 characters gets 2 windows, the second being the first's last 500 characters |
| `Chunking.Reassemble` | app.py:75 | concatenating the first min(1500, len) characters of every window, in order, gives back the text |
| `SegmentIds.NatToString` | app.py:76 | str(i) is a non-empty string of decimal digits that starts with '0' only for 0 |
| `SegmentIds.ParseNatToString` | app.py:76 | reading str(n) as a decimal number gives back n |
| `SegmentIds.SegmentId` | app.py:76 | definition: the id f + "_" + str(i); its properties are SegmentIdRoundTrip and SegmentIdInjective |
| `SegmentIds.SegmentIdRoundTrip` | app.py:76 | from the id `f_i` the file name f and the index i can be recovered |
| `SegmentIds.SegmentIdInjective` | app.py:76 | two ids are equal if and only if they have the same file name and the same index |
| `SegmentIds.Ids` | app.py:76 | definition: the id comprehension, SegmentId(f, i) for i below n; its properties are IdsAndMetadatas |
| `SegmentIds.Metadatas` | app.py:77 | definition: the metadata comprehension, n records with source f; its properties are IdsAndMetadatas |
| `SegmentIds.IdsAndMetadatas` | app.py:76-77 | ids and metadatas have the given length, id i is f + "_" + str(i), the ids are pairwise distinct, and every metadata source is f |
| `Ingestion.FileBatch` | app.py:75-77 | definition: the three parallel lists built for one file's text; its properties are FileBatchShape |
| `Ingestion.FileBatchShape` | app.py:75-77 | a file's batch has the three lists of equal length ChunkCount(L), with distinct ids `f_i`, document i equal to window i, and source f |
| `Ingestion.BatchMapFacts` | app.py:79 | adding a batch with distinct ids stores each element under its id, with as many entries as ids, and stores no other key |
| `Ingestion.Store.constructor` | app.py:59-61 | get_or_create_collection on a fresh database: the store starts with no entries |
| `Ingestion.Store.Count` | app.py:64 | definition: collection.count(), the number of stored entries; used by InitializeRag's guard |
| `Ingestion.Store.Add` | app.py:79 | on a non-empty batch of new, distinct ids, the store becomes the old entries plus the batch's entries and grows by the number of ids |
| `Ingestion.JoinPages` | app.py:70-72 | definition: each page's text followed by a newline, in order; its properties are JoinPagesShape and ExtractText |
| `Ingestion.JoinPagesShape` | app.py:70-72 | the accumulated text is empty exactly when there are no pages, has at least one character per page, and ends in a newline |
| `Ingestion.ExtractText` | app.py:70-72 | the page loop produces the pages' texts, each followed by a newline, in order |
| `Ingestion.IsPdf` | app.py:67 | definition: the name ends with ".pdf"; its properties are SkipFileStep and PdfFileStep |
| `Ingestion.FirstFailing` | app.py:66-79 | the position of the first PDF ingestion raises on, because the reader fails or the file has no pages: no earlier entry is one, and the entry there is one |
| `Ingestion.EntryMap` | app.py:67-79 | definition: what processing one entry adds, the batch map of a readable PDF and nothing otherwise; its properties are EntryMapFacts |
| `Ingestion.ListingMap` | app.py:66-79 | definition: what processing the entries in order adds; its properties are ListingMapSources, ListingDisjoint, ListingMapContents |
| `Ingestion.EntryMapFacts` | app.py:66-79 | a readable PDF contributes one entry per window, under id `f_i`, with window i and source f; anything else contributes nothing |
| `Ingestion.ListingMapSources` | app.py:66-79 | every stored id names the file recorded as its source, and that file is a readable PDF of the listing |
| `Ingestion.ListingDisjoint` | app.py:66-79 | with distinct file names, a file adds only ids that the earlier files did not add |
| `Ingestion.ListingMapSize` | app.py:66-79 | with distinct file names, the store holds exactly TotalChunks entries, one per window of every readable PDF |
| `Ingestion.ListingMapHolds` | app.py:66-79 | with distinct file names, every window of the readable PDF at a given position is stored under its id with its file as source |
| `Ingestion.ListingMapContents` | app.py:66-79 | with distinct file names, the store holds exactly TotalChunks entries, window i of every readable PDF under its id |
| `Ingestion.AddFileStep` | app.py:67-79 | the batch of the next readable PDF is well formed, holds only new ids, and adding it extends the store to the next prefix's contents |
| `Ingestion.PdfFileStep` | app.py:67-79 | for a PDF the reader accepts, before the first failing position: its batch is empty exactly when it is the first failing one; otherwise the batch is well formed, holds only new ids, and adding it extends the store to the next prefix's contents |
| `Ingestion.SkipFileStep` | app.py:67 | an entry that is not a PDF adds nothing |
| `Ingestion.IngestResult` | app.py:64-79 | definition: the store after one run, the prefix map up to the first failing PDF when the store is empty and the folder exists, else unchanged; its properties are IngestSkipsNonEmpty, IngestIdempotent, IngestFillsEmptyStore, RestartAfterIngest, InitializeRag |
| `Ingestion.IngestOutcome` | app.py:64-79 | definition: the run raises on the first failing PDF when it ingests, else completes; its properties are IngestSkipsNonEmpty, RestartAfterIngest, InitializeRag |
| `Ingestion.IngestSkipsNonEmpty` | app.py:64 | a non-empty store, or a missing folder, is left unchanged and the run completes |
| `Ingestion.IngestIdempotent` | app.py:64-79 | running the ingestion twice on the same folder gives the same store as running it once |
| `Ingestion.IngestFillsEmptyStore` | app.py:64-79 | on an empty store, exactly the windows of the readable PDFs before the first failing one are stored, and only their sources |
| `Ingestion.TotalChunksZero` | app.py:66-79 | a listing has no windows exactly when it has no readable PDF |
| `Ingestion.RestartAfterIngest` | app.py:64-79 | after a run on an empty store, the store is empty exactly when no readable PDF precedes the first failing one; if it is non-empty the next start skips and completes, otherwise it ends exactly as the first did, raising again on the same file |
| `Ingestion.InitializeRag` | app.py:58-81 | the store after the run and the way the run ends match IngestResult and IngestOutcome, including the guard and an exception part-way |
| `Retrieval.Sources` | app.py:123 | the cited names have no duplicates, their set is the set of the hits' sources, and there are no more of them than hits |
| `Retrieval.SourcesBounded` | app.py:121-123 | with at most n_results = 3 hits, at most 3 distinct files are cited |
| `Retrieval.SourcesWereIngested` | app.py:121-123 | when the hits come from a store filled from a listing, every cited source is a readable PDF of that listing |
| `Conversation.Submitted` | app.py:189 | definition: the walrus test on chat_input, a value that is not the empty string |
| `Conversation.AwaitingReply` | app.py:197 | definition: the log is non-empty and its last turn is a user turn |
| `Conversation.Step` | app.py:189-211 | definition: the log after one run, a submission appended as a user turn, else a pending question answered by one assistant turn unless the analysis raised; its properties are StepAppendOnly, ReplyOnlyAfterUser, ReplyAppendsAnswer, ReplyOnce, StepPreservesWellFormed, Session.Run |
| `Conversation.StepAppendOnly` | app.py:189-190 | a run keeps every earlier turn and appends at most one; a submission appends exactly the user turn with its text |
| `Conversation.ReplyOnlyAfterUser` | app.py:197-210 | an assistant turn is appended only without a submission, when the last turn is a user turn, and it holds the answer to that turn |
| `Conversation.ReplyAppendsAnswer` | app.py:197-210 | when the last turn is a user turn and its analysis succeeds, a run without a submission appends exactly one assistant turn holding that answer |
| `Conversation.ReplyOnce` | app.py:197-211 | after a run has answered, a later run without a submission appends nothing, whatever its own analysis returns: one answer per question |
| `Conversation.StepPreservesWellFormed` | app.py:189-210 | every assistant turn still directly follows a user turn after a run |
| `Conversation.AnswersNeverExceedQuestions` | app.py:189-210 | a well-formed log has no more assistant turns than user turns, and strictly fewer while a question is pending |
| `Conversation.Session.constructor` | app.py:177-178 | a new session's log is empty |
| `Conversation.Session.Run` | app.py:189-211 | one run changes the log exactly as Step says and keeps it well formed |

## Left out

- Page setup, CSS, columns, logo, spinners, rendering of the history and of the cited sources (app.py:19-52, 163-187, 198-208). These are presentation.
- `st.rerun` (app.py:194, 211). It is modelled only as "the run ends here". Streamlit's re-execution and widget state are not modelled.
- The sqlite module shim (app.py:1-7). This is module patching.
- PDF text extraction (app.py:69-72). The model receives each file's page texts, or `None` where the reader raises.
- The folder check and listing (app.py:64-66). `os.path.exists` is a boolean parameter, and `os.listdir` is an arbitrary sequence of entries with distinct names.
- The ChromaDB client, the embedding function and the nearest-neighbour ranking (app.py:59-61, 121). The store is a map, and the query's hits are any sequence.
- `Ingestion.Store.Add`: requires parallel, non-empty lists and new, distinct ids. The store raises on empty lists; `InitializeRag` models that exception itself, as the end of the run, before it would call `Add`. The model leaves out the store's behaviour for a duplicate or already-present id. The ingestion is proved never to pass one.
- The local and web context strings and the two prompt templates (app.py:93, 101-114, 122, 126-157). These are string interpolation.
- The Tavily search, Gemini `configure`/`generate_content` and `st.secrets` (app.py:89-99, 116, 126-137, 159). These are network I/O. The whole analysis is the parameter `analyze` of `Conversation.Step`.
- `get_latest_updates` and its button (app.py:84-117, 167-175). The digest never touches the store or the log.
- `Retrieval.Sources`: `list(set(...))` has no defined order in Python. The model picks first-occurrence order. Its contract states only the order-independent facts: no duplicates, the same set, and the count.
- Concurrency: two processes racing on an empty store could both ingest. The model is one sequential run.
- Text is a sequence of Unicode characters, as Python's `str` is. Slicing offsets count characters.
