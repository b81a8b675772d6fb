/** Building the knowledge store from a folder of documents.

    On start-up the store is filled, once, from the PDF files of the
    knowledge-base folder: the text of each file's pages is accumulated, cut
    into windows (module Chunking) and added under the ids and metadata of
    module SegmentIds.  A store that already holds anything is left alone.

    The store is an abstract keyed collection: a map from segment id to the
    stored window text and its metadata. */
module Ingestion {
  import opened Wrappers
  import opened Chunking
  import opened SegmentIds

  /** What the store keeps under one id. */
  datatype StoredSegment = StoredSegment(document: string, metadata: Metadata)

  /** The three parallel lists handed to one `add` call. */
  datatype Batch = Batch(documents: seq<string>, ids: seq<string>, metadatas: seq<Metadata>)

  predicate WellShaped(b: Batch)
  {
    |b.ids| == |b.documents| && |b.ids| == |b.metadatas|
  }

  predicate DistinctIds(ids: seq<string>)
  {
    forall i, j :: 0 <= i < j < |ids| ==> ids[i] != ids[j]
  }

  /** The batch built for one file from its extracted text. */
  function FileBatch(filename: string, text: string): Batch
  {
    var chunks := Chunks(text);
    Batch(chunks, Ids(filename, |chunks|), Metadatas(filename, |chunks|))
  }

  /** The batch of a file holds one entry per window, under pairwise distinct
      ids `filename_i`, each recording the file as its source. */
  lemma FileBatchShape(filename: string, text: string)
    ensures WellShaped(FileBatch(filename, text))
    ensures |FileBatch(filename, text).ids| == ChunkCount(|text|)
    ensures DistinctIds(FileBatch(filename, text).ids)
    ensures forall i :: 0 <= i < |FileBatch(filename, text).ids| ==>
              FileBatch(filename, text).ids[i] == SegmentId(filename, i) &&
              FileBatch(filename, text).documents[i] == Chunks(text)[i] &&
              FileBatch(filename, text).metadatas[i].source == filename
  {
    ChunkCountIsCeiling(text);
    IdsAndMetadatas(filename, |Chunks(text)|);
  }

  /** The entries the first n elements of a batch put into the store. */
  function BatchPrefixMap(b: Batch, n: nat): map<string, StoredSegment>
    requires WellShaped(b) && n <= |b.ids|
  {
    if n == 0 then map[]
    else BatchPrefixMap(b, n - 1)[b.ids[n - 1] := StoredSegment(b.documents[n - 1], b.metadatas[n - 1])]
  }

  function BatchMap(b: Batch): map<string, StoredSegment>
    requires WellShaped(b)
  {
    BatchPrefixMap(b, |b.ids|)
  }

  lemma {:induction false} BatchPrefixMapFresh(b: Batch, n: nat)
    requires WellShaped(b) && DistinctIds(b.ids) && n <= |b.ids|
    ensures forall j :: n <= j < |b.ids| ==> b.ids[j] !in BatchPrefixMap(b, n)
  {
    if n > 0 {
      BatchPrefixMapFresh(b, n - 1);
      forall j | n <= j < |b.ids|
        ensures b.ids[j] !in BatchPrefixMap(b, n)
      {
        assert b.ids[j] != b.ids[n - 1];
      }
    }
  }

  lemma {:induction false} BatchPrefixMapSize(b: Batch, n: nat)
    requires WellShaped(b) && DistinctIds(b.ids) && n <= |b.ids|
    ensures |BatchPrefixMap(b, n)| == n
  {
    if n > 0 {
      BatchPrefixMapSize(b, n - 1);
      BatchPrefixMapFresh(b, n - 1);
    }
  }

  lemma {:induction false} BatchPrefixMapKeys(b: Batch, n: nat)
    requires WellShaped(b) && n <= |b.ids|
    ensures forall id | id in BatchPrefixMap(b, n) :: exists i :: 0 <= i < n && b.ids[i] == id
  {
    if n > 0 {
      BatchPrefixMapKeys(b, n - 1);
      forall id | id in BatchPrefixMap(b, n)
        ensures exists i :: 0 <= i < n && b.ids[i] == id
      {
        if id == b.ids[n - 1] {
          assert b.ids[n - 1] == id;
        } else {
          assert id in BatchPrefixMap(b, n - 1);
        }
      }
    }
  }

  lemma {:induction false} BatchPrefixMapValues(b: Batch, n: nat)
    requires WellShaped(b) && DistinctIds(b.ids) && n <= |b.ids|
    ensures forall i :: 0 <= i < n ==>
              b.ids[i] in BatchPrefixMap(b, n) &&
              BatchPrefixMap(b, n)[b.ids[i]] == StoredSegment(b.documents[i], b.metadatas[i])
  {
    if n > 0 {
      BatchPrefixMapValues(b, n - 1);
      forall i | 0 <= i < n - 1
        ensures b.ids[i] != b.ids[n - 1]
      {
      }
    }
  }

  /** Adding a batch with distinct ids stores every element under its own id
      and nothing else. */
  lemma BatchMapFacts(b: Batch)
    requires WellShaped(b) && DistinctIds(b.ids)
    ensures |BatchMap(b)| == |b.ids|
    ensures forall id | id in BatchMap(b) :: exists i :: 0 <= i < |b.ids| && b.ids[i] == id
    ensures forall i :: 0 <= i < |b.ids| ==>
              b.ids[i] in BatchMap(b) &&
              BatchMap(b)[b.ids[i]] == StoredSegment(b.documents[i], b.metadatas[i])
  {
    BatchPrefixMapSize(b, |b.ids|);
    BatchPrefixMapKeys(b, |b.ids|);
    BatchPrefixMapValues(b, |b.ids|);
  }

  /** The persistent collection of segments. */
  class Store {
    var entries: map<string, StoredSegment>

    constructor ()
      ensures entries == map[]
    {
      entries := map[];
    }

    /** Number of stored segments. */
    function Count(): nat
      reads this
    {
      |entries|
    }

    /** Insert a batch of new segments: the lists are parallel and not
        empty, the ids distinct and not yet present. */
    method Add(b: Batch)
      requires WellShaped(b) && |b.ids| > 0 && DistinctIds(b.ids)
      requires forall i :: 0 <= i < |b.ids| ==> b.ids[i] !in entries
      modifies this
      ensures entries == old(entries) + BatchMap(b)
      ensures |entries| == old(|entries|) + |b.ids|
    {
      BatchMapFacts(b);
      assert entries.Keys !! BatchMap(b).Keys;
      DisjointUnionSize(entries, BatchMap(b));
      entries := entries + BatchMap(b);
    }
  }

  lemma DisjointUnionSize<K, V>(m1: map<K, V>, m2: map<K, V>)
    requires m1.Keys !! m2.Keys
    ensures |m1 + m2| == |m1| + |m2|
  {
    assert (m1 + m2).Keys == m1.Keys + m2.Keys;
    assert |m1.Keys + m2.Keys| == |m1.Keys| + |m2.Keys|;
  }

  /** The text accumulated from a document's pages: each page's text
      followed by a newline. */
  function JoinPages(pages: seq<string>): string
  {
    if pages == [] then [] else JoinPages(pages[..|pages| - 1]) + pages[|pages| - 1] + "\n"
  }

  /** The accumulated text is empty exactly when the document has no pages,
      is at least one character per page long, and ends in a newline. */
  lemma {:induction false} JoinPagesShape(pages: seq<string>)
    ensures JoinPages(pages) == [] <==> pages == []
    ensures |JoinPages(pages)| >= |pages|
    ensures pages != [] ==> JoinPages(pages)[|JoinPages(pages)| - 1] == '\n'
  {
    if pages != [] {
      JoinPagesShape(pages[..|pages| - 1]);
    }
  }

  /** The page loop: text starts empty and every page's text and a newline
      are appended in turn. */
  method ExtractText(pages: seq<string>) returns (text: string)
    ensures text == JoinPages(pages)
  {
    text := "";
    for k := 0 to |pages|
      invariant text == JoinPages(pages[..k])
    {
      assert pages[..k + 1][..k] == pages[..k];
      text := text + pages[k] + "\n";
    }
    assert pages[..|pages|] == pages;
  }

  /** One entry of the folder listing.  `pages` holds the extracted text of
      each page, or is None when the PDF reader raises on the file. */
  datatype DirEntry = DirEntry(name: string, pages: Option<seq<string>>)

  /** The file name ends with ".pdf". */
  predicate IsPdf(name: string)
  {
    |name| >= 4 && name[|name| - 4..] == ".pdf"
  }

  /** A PDF that is read and added: the reader accepts it and it has at
      least one page. */
  predicate Readable(e: DirEntry)
  {
    IsPdf(e.name) && e.pages.Some? && e.pages.value != []
  }

  /** A PDF on which ingestion raises: the reader fails on it, or it has no
      pages, so its text is empty and the store's `add` rejects the empty
      lists it is handed. */
  predicate Failing(e: DirEntry)
  {
    IsPdf(e.name) && (e.pages.None? || e.pages.value == [])
  }

  predicate DistinctNames(listing: seq<DirEntry>)
  {
    forall i, j :: 0 <= i < j < |listing| ==> listing[i].name != listing[j].name
  }

  /** Position of the first PDF ingestion raises on, or |listing| if none. */
  function FirstFailing(listing: seq<DirEntry>): (k: nat)
    ensures k <= |listing|
    ensures forall j :: 0 <= j < k ==> !Failing(listing[j])
    ensures k < |listing| ==> Failing(listing[k])
  {
    if listing == [] then 0
    else if Failing(listing[0]) then 0
    else 1 + FirstFailing(listing[1..])
  }

  /** Extracted text of a readable PDF. */
  function EntryText(e: DirEntry): string
    requires Readable(e)
  {
    JoinPages(e.pages.value)
  }

  /** What processing one listing entry adds to the store. */
  function EntryMap(e: DirEntry): map<string, StoredSegment>
  {
    if Readable(e) then
      FileBatchShape(e.name, EntryText(e));
      BatchMap(FileBatch(e.name, EntryText(e)))
    else map[]
  }

  /** What processing the entries of `listing` in order adds to the store. */
  function ListingMap(listing: seq<DirEntry>): map<string, StoredSegment>
  {
    if listing == [] then map[]
    else ListingMap(listing[..|listing| - 1]) + EntryMap(listing[|listing| - 1])
  }

  /** Names of the readable PDFs of a listing. */
  function ReadableNames(listing: seq<DirEntry>): set<string>
  {
    if listing == [] then {}
    else
      var e := listing[|listing| - 1];
      ReadableNames(listing[..|listing| - 1]) + (if Readable(e) then {e.name} else {})
  }

  /** With distinct file names, the last file's name is not among those
      before it. */
  lemma {:induction false} LastNameIsNew(listing: seq<DirEntry>, name: string)
    requires forall j :: 0 <= j < |listing| ==> listing[j].name != name
    ensures name !in ReadableNames(listing)
  {
    if listing != [] {
      LastNameIsNew(listing[..|listing| - 1], name);
    }
  }

  /** Total number of windows of the readable PDFs of a listing. */
  function TotalChunks(listing: seq<DirEntry>): nat
  {
    if listing == [] then 0
    else
      var e := listing[|listing| - 1];
      TotalChunks(listing[..|listing| - 1]) + (if Readable(e) then ChunkCount(|EntryText(e)|) else 0)
  }

  lemma EntryMapFacts(e: DirEntry)
    ensures forall id | id in EntryMap(e) :: Readable(e) && EntryMap(e)[id].metadata.source == e.name
    ensures forall id | id in EntryMap(e) :: IdFile(id) == e.name
    ensures |EntryMap(e)| == if Readable(e) then ChunkCount(|EntryText(e)|) else 0
    ensures Readable(e) ==> forall i :: 0 <= i < |Chunks(EntryText(e))| ==>
              SegmentId(e.name, i) in EntryMap(e) &&
              EntryMap(e)[SegmentId(e.name, i)] == StoredSegment(Chunks(EntryText(e))[i], Metadata(e.name))
  {
    if Readable(e) {
      var b := FileBatch(e.name, EntryText(e));
      FileBatchShape(e.name, EntryText(e));
      BatchMapFacts(b);
      forall id | id in EntryMap(e)
        ensures EntryMap(e)[id].metadata.source == e.name && IdFile(id) == e.name
      {
        var i :| 0 <= i < |b.ids| && b.ids[i] == id;
        SegmentIdRoundTrip(e.name, i);
      }
    }
  }

  /** Every stored id names the file recorded as its source, and that file is
      a readable PDF of the listing. */
  lemma {:induction false} ListingMapSources(listing: seq<DirEntry>)
    ensures forall id | id in ListingMap(listing) ::
              IdFile(id) == ListingMap(listing)[id].metadata.source &&
              ListingMap(listing)[id].metadata.source in ReadableNames(listing)
  {
    if listing != [] {
      ListingMapSources(listing[..|listing| - 1]);
      EntryMapFacts(listing[|listing| - 1]);
    }
  }

  /** The last file of a listing adds only ids the earlier files did not. */
  lemma ListingDisjoint(listing: seq<DirEntry>)
    requires DistinctNames(listing) && listing != []
    ensures ListingMap(listing[..|listing| - 1]).Keys !! EntryMap(listing[|listing| - 1]).Keys
  {
    var n := |listing|;
    var init, e := listing[..n - 1], listing[n - 1];
    ListingMapSources(init);
    EntryMapFacts(e);
    LastNameIsNew(init, e.name);
    forall id | id in ListingMap(init)
      ensures id !in EntryMap(e)
    {
      assert IdFile(id) != e.name;
    }
  }

  lemma {:induction false} ListingMapSize(listing: seq<DirEntry>)
    requires DistinctNames(listing)
    ensures |ListingMap(listing)| == TotalChunks(listing)
  {
    if listing != [] {
      var init, e := listing[..|listing| - 1], listing[|listing| - 1];
      assert DistinctNames(init);
      ListingMapSize(init);
      EntryMapFacts(e);
      ListingDisjoint(listing);
      DisjointUnionSize(ListingMap(init), EntryMap(e));
    }
  }

  /** Every window of the readable PDF at position j is stored under its id. */
  lemma {:induction false} ListingMapHolds(listing: seq<DirEntry>, j: nat)
    requires DistinctNames(listing) && j < |listing| && Readable(listing[j])
    ensures forall i :: 0 <= i < |Chunks(EntryText(listing[j]))| ==>
              SegmentId(listing[j].name, i) in ListingMap(listing) &&
              ListingMap(listing)[SegmentId(listing[j].name, i)] ==
                StoredSegment(Chunks(EntryText(listing[j]))[i], Metadata(listing[j].name))
  {
    var init, e := listing[..|listing| - 1], listing[|listing| - 1];
    if j == |listing| - 1 {
      EntryMapFacts(e);
    } else {
      assert DistinctNames(init);
      assert init[j] == listing[j];
      ListingMapHolds(init, j);
      ListingDisjoint(listing);
    }
  }

  /** With distinct file names, the windows of different files never share an
      id: the store ends up with exactly one entry per window of every
      readable PDF, holding that window and naming its file. */
  lemma ListingMapContents(listing: seq<DirEntry>)
    requires DistinctNames(listing)
    ensures |ListingMap(listing)| == TotalChunks(listing)
    ensures forall j, i :: 0 <= j < |listing| && Readable(listing[j]) && 0 <= i < |Chunks(EntryText(listing[j]))| ==>
              SegmentId(listing[j].name, i) in ListingMap(listing) &&
              ListingMap(listing)[SegmentId(listing[j].name, i)] ==
                StoredSegment(Chunks(EntryText(listing[j]))[i], Metadata(listing[j].name))
  {
    ListingMapSize(listing);
    forall j | 0 <= j < |listing| && Readable(listing[j])
      ensures forall i :: 0 <= i < |Chunks(EntryText(listing[j]))| ==>
                SegmentId(listing[j].name, i) in ListingMap(listing) &&
                ListingMap(listing)[SegmentId(listing[j].name, i)] ==
                  StoredSegment(Chunks(EntryText(listing[j]))[i], Metadata(listing[j].name))
    {
      ListingMapHolds(listing, j);
    }
  }

  /** How a run of the ingestion ends: normally, or by the exception the PDF
      reader raised on the named file. */
  datatype Outcome = Completed | Raised(filename: string)

  /** The store after one run of the ingestion. */
  function IngestResult(entries: map<string, StoredSegment>, folderExists: bool, listing: seq<DirEntry>)
    : map<string, StoredSegment>
  {
    if |entries| == 0 && folderExists then ListingMap(listing[..FirstFailing(listing)]) else entries
  }

  /** How one run of the ingestion ends. */
  function IngestOutcome(entries: map<string, StoredSegment>, folderExists: bool, listing: seq<DirEntry>): Outcome
  {
    if |entries| == 0 && folderExists && FirstFailing(listing) < |listing|
    then Raised(listing[FirstFailing(listing)].name)
    else Completed
  }

  /** A second run on the same folder changes nothing: either the first run
      left the store non-empty, and the guard skips, or it added nothing, and
      the second run adds the same nothing. */
  lemma IngestIdempotent(entries: map<string, StoredSegment>, folderExists: bool, listing: seq<DirEntry>)
    ensures IngestResult(IngestResult(entries, folderExists, listing), folderExists, listing)
            == IngestResult(entries, folderExists, listing)
  {
  }

  /** A store that holds anything is never written to. */
  lemma IngestSkipsNonEmpty(entries: map<string, StoredSegment>, folderExists: bool, listing: seq<DirEntry>)
    requires |entries| > 0 || !folderExists
    ensures IngestResult(entries, folderExists, listing) == entries
    ensures IngestOutcome(entries, folderExists, listing) == Completed
  {
  }

  /** On an empty store, a run over distinct file names stores exactly the
      windows of the readable PDFs listed before the first failing one (of
      all of them when there is none). */
  lemma IngestFillsEmptyStore(listing: seq<DirEntry>, k: nat)
    requires DistinctNames(listing) && k == FirstFailing(listing)
    ensures |IngestResult(map[], true, listing)| == TotalChunks(listing[..k])
    ensures forall id | id in IngestResult(map[], true, listing) ::
              IngestResult(map[], true, listing)[id].metadata.source in ReadableNames(listing[..k])
    ensures forall j, i :: 0 <= j < k && Readable(listing[j]) && 0 <= i < |Chunks(EntryText(listing[j]))| ==>
              SegmentId(listing[j].name, i) in IngestResult(map[], true, listing) &&
              IngestResult(map[], true, listing)[SegmentId(listing[j].name, i)] ==
                StoredSegment(Chunks(EntryText(listing[j]))[i], Metadata(listing[j].name))
  {
    var pre := listing[..k];
    assert DistinctNames(pre);
    ListingMapContents(pre);
    ListingMapSources(pre);
    forall j | 0 <= j < k
      ensures listing[j] == pre[j]
    {
    }
  }

  /** A listing has no windows exactly when it has no readable PDF: a PDF
      with at least one page has non-empty text. */
  lemma {:induction false} TotalChunksZero(listing: seq<DirEntry>)
    ensures TotalChunks(listing) == 0 <==> forall j :: 0 <= j < |listing| ==> !Readable(listing[j])
  {
    if listing != [] {
      var init, e := listing[..|listing| - 1], listing[|listing| - 1];
      TotalChunksZero(init);
      if Readable(e) {
        JoinPagesShape(e.pages.value);
      }
      assert forall j :: 0 <= j < |init| ==> init[j] == listing[j];
    }
  }

  /** The next start after a run on an empty store: when the run added
      something, the guard skips and the start completes; when it added
      nothing, which happens exactly when no readable PDF precedes the first
      failing one, the next start ends exactly as the first did, raising
      again on the same file. */
  lemma RestartAfterIngest(listing: seq<DirEntry>)
    requires DistinctNames(listing)
    ensures var first := IngestResult(map[], true, listing);
            (|first| == 0 <==> forall j :: 0 <= j < FirstFailing(listing) ==> !Readable(listing[j])) &&
            (|first| > 0 ==> IngestResult(first, true, listing) == first &&
                             IngestOutcome(first, true, listing) == Completed) &&
            (|first| == 0 ==> IngestOutcome(first, true, listing) == IngestOutcome(map[], true, listing))
  {
    var k := FirstFailing(listing);
    IngestFillsEmptyStore(listing, k);
    TotalChunksZero(listing[..k]);
    assert forall j :: 0 <= j < k ==> listing[..k][j] == listing[j];
  }

  /** Processing entry k of the listing, a readable PDF, adds a well-formed
      batch of ids the store does not hold yet. */
  lemma AddFileStep(listing: seq<DirEntry>, k: nat)
    requires DistinctNames(listing) && k < |listing| && Readable(listing[k])
    ensures var b := FileBatch(listing[k].name, EntryText(listing[k]));
            WellShaped(b) && DistinctIds(b.ids) &&
            (forall i :: 0 <= i < |b.ids| ==> b.ids[i] !in ListingMap(listing[..k])) &&
            ListingMap(listing[..k + 1]) == ListingMap(listing[..k]) + BatchMap(b)
  {
    var pre := listing[..k + 1];
    assert pre[..k] == listing[..k];
    assert DistinctNames(pre);
    var e := listing[k];
    var b := FileBatch(e.name, EntryText(e));
    FileBatchShape(e.name, EntryText(e));
    BatchMapFacts(b);
    ListingDisjoint(pre);
    forall i | 0 <= i < |b.ids|
      ensures b.ids[i] !in ListingMap(listing[..k])
    {
      assert b.ids[i] in EntryMap(e);
    }
  }

  /** Processing entry k of the listing, a PDF the reader accepts, before the
      first failing entry: its batch is empty exactly when the PDF has no
      pages, which makes k the first failing position; otherwise the batch
      extends the store to the next prefix's contents and k + 1 is still at
      most the first failing position. */
  lemma PdfFileStep(listing: seq<DirEntry>, k: nat)
    requires DistinctNames(listing) && k < |listing| && k <= FirstFailing(listing)
    requires IsPdf(listing[k].name) && listing[k].pages.Some?
    ensures var b := FileBatch(listing[k].name, JoinPages(listing[k].pages.value));
            (|b.ids| == 0 <==> k == FirstFailing(listing)) &&
            (|b.ids| > 0 ==>
               k + 1 <= FirstFailing(listing) &&
               WellShaped(b) && DistinctIds(b.ids) &&
               (forall i :: 0 <= i < |b.ids| ==> b.ids[i] !in ListingMap(listing[..k])) &&
               ListingMap(listing[..k + 1]) == ListingMap(listing[..k]) + BatchMap(b))
  {
    var e := listing[k];
    var text := JoinPages(e.pages.value);
    FileBatchShape(e.name, text);
    JoinPagesShape(e.pages.value);
    ChunkCountIsCeiling(text);
    if e.pages.value != [] {
      assert Readable(e) && !Failing(e);
      AddFileStep(listing, k);
    } else {
      assert Failing(e);
    }
  }

  /** Processing entry k of the listing, not a PDF, adds nothing. */
  lemma SkipFileStep(listing: seq<DirEntry>, k: nat)
    requires k < |listing| && !IsPdf(listing[k].name)
    ensures ListingMap(listing[..k + 1]) == ListingMap(listing[..k])
  {
    assert listing[..k + 1][..k] == listing[..k];
  }

  /** The start-up ingestion: when the store is empty and the folder exists,
      every PDF of the listing is read, cut and added, in listing order; the
      exception raised on a PDF the reader fails on, or on one without pages,
      ends the run, leaving the files before it added. */
  method InitializeRag(store: Store, folderExists: bool, listing: seq<DirEntry>) returns (outcome: Outcome)
    requires DistinctNames(listing)
    modifies store
    ensures store.entries == IngestResult(old(store.entries), folderExists, listing)
    ensures outcome == IngestOutcome(old(store.entries), folderExists, listing)
  {
    outcome := Completed;
    if store.Count() == 0 && folderExists {
      var k := 0;
      while k < |listing|
        invariant 0 <= k <= FirstFailing(listing)
        invariant store.entries == ListingMap(listing[..k])
      {
        var e := listing[k];
        if IsPdf(e.name) {
          match e.pages
          case None =>
            outcome := Raised(e.name);
            return;
          case Some(pages) =>
            var text := ExtractText(pages);
            var batch := FileBatch(e.name, text);
            PdfFileStep(listing, k);
            if |batch.ids| == 0 {
              outcome := Raised(e.name);
              return;
            }
            store.Add(batch);
        } else {
          SkipFileStep(listing, k);
        }
        k := k + 1;
      }
      assert listing[..|listing|] == listing;
    }
  }
}
