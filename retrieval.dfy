/** The local sources cited with an answer.

    The store's similarity query returns up to three hits, each a stored
    window and its metadata; the ranking itself belongs to the store and is
    not modelled, so any hit sequence is allowed.  The answer cites the
    source files of the hits, each once. */
module Retrieval {
  import opened SegmentIds
  import opened Ingestion

  /** The number of hits the query asks for. */
  const NResults: nat := 3

  /** One query hit: a stored window and its metadata. */
  datatype Hit = Hit(document: string, metadata: Metadata)

  predicate NoDuplicates(xs: seq<string>)
  {
    forall i, j :: 0 <= i < j < |xs| ==> xs[i] != xs[j]
  }

  /** The source file names of the hits. */
  function SourceSet(hits: seq<Hit>): set<string>
  {
    set h | h in hits :: h.metadata.source
  }

  /** The source file names of the hits, each once, in the order they first
      occur. */
  function Sources(hits: seq<Hit>): (r: seq<string>)
    ensures NoDuplicates(r)
    ensures (set s | s in r) == SourceSet(hits)
    ensures |r| <= |hits|
  {
    if hits == [] then []
    else
      var init := hits[..|hits| - 1];
      var r := Sources(init);
      var s := hits[|hits| - 1].metadata.source;
      assert hits == init + [hits[|hits| - 1]];
      assert SourceSet(hits) == SourceSet(init) + {s};
      if s in r then r else r + [s]
  }

  /** A query asking for NResults hits cites at most NResults files. */
  lemma SourcesBounded(hits: seq<Hit>)
    requires |hits| <= NResults
    ensures |Sources(hits)| <= NResults
    ensures NoDuplicates(Sources(hits))
  {
  }

  /** The hits are entries of the store. */
  predicate HitsFrom(hits: seq<Hit>, entries: map<string, StoredSegment>)
  {
    forall h | h in hits :: StoredSegment(h.document, h.metadata) in entries.Values
  }

  /** On a store filled from a listing, every cited source is a readable PDF
      of that listing. */
  lemma SourcesWereIngested(hits: seq<Hit>, listing: seq<DirEntry>)
    requires HitsFrom(hits, ListingMap(listing))
    ensures forall s | s in Sources(hits) :: s in ReadableNames(listing)
  {
    ListingMapSources(listing);
    var m := ListingMap(listing);
    forall s | s in Sources(hits)
      ensures s in ReadableNames(listing)
    {
      assert s in (set x | x in Sources(hits));
      assert s in SourceSet(hits);
      var h :| h in hits && h.metadata.source == s;
      var id :| id in m && m[id] == StoredSegment(h.document, h.metadata);
    }
  }
}
