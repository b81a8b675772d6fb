/** Fixed-window segmentation of extracted document text.

    The ingestor cuts the text of one document into windows of `Width`
    characters that start every `Stride` characters, one window per start
    offset `0, Stride, 2*Stride, ...` below the length of the text.  A window
    that runs past the end of the text is cut short, as a slice does. */
module Chunking {

  /** Width of one window, in characters. */
  const Width: nat := 2000
  /** Distance between the starts of two consecutive windows. */
  const Stride: nat := 1500

  function Min(a: int, b: int): int { if a <= b then a else b }

  /** The windows whose start offsets are `start, start + Stride, ...`,
      each start strictly below `|text|`. */
  function ChunksFrom(text: string, start: nat): seq<string>
    decreases |text| - start
  {
    if start >= |text| then []
    else [text[start .. Min(start + Width, |text|)]] + ChunksFrom(text, start + Stride)
  }

  /** All windows of `text`, in order. */
  function Chunks(text: string): seq<string>
  {
    ChunksFrom(text, 0)
  }

  /** The number of windows is the ceiling of |text| / Stride. */
  function ChunkCount(len: nat): (n: nat)
    ensures len == 0 <==> n == 0
    ensures n > 0 ==> Stride * (n - 1) < len <= Stride * n
  {
    (len + Stride - 1) / Stride
  }

  lemma {:induction false} ChunksFromCount(text: string, start: nat)
    ensures |ChunksFrom(text, start)| == if start >= |text| then 0 else ChunkCount(|text| - start)
    decreases |text| - start
  {
    if start < |text| {
      ChunksFromCount(text, start + Stride);
    }
  }

  /** Chunk count: ceil(L / 1500) windows, and none for the empty text. */
  lemma ChunkCountIsCeiling(text: string)
    ensures |Chunks(text)| == ChunkCount(|text|)
    ensures |Chunks(text)| == 0 <==> |text| == 0
    ensures |text| > 0 ==> Stride * (|Chunks(text)| - 1) < |text| <= Stride * |Chunks(text)|
  {
    ChunksFromCount(text, 0);
  }

  lemma {:induction false} ChunksFromAt(text: string, start: nat, i: nat)
    requires i < |ChunksFrom(text, start)|
    ensures start + Stride * i < |text|
    ensures ChunksFrom(text, start)[i] == text[start + Stride * i .. Min(start + Stride * i + Width, |text|)]
    decreases i
  {
    if i > 0 {
      ChunksFromAt(text, start + Stride, i - 1);
    }
  }

  /** Window i is the slice of the text at offset Stride * i, at most Width
      long, and never empty. */
  lemma ChunkAt(text: string, i: nat)
    requires i < |Chunks(text)|
    ensures Stride * i < |text|
    ensures Chunks(text)[i] == text[Stride * i .. Min(Stride * i + Width, |text|)]
    ensures 0 < |Chunks(text)[i]| <= Width
  {
    ChunksFromAt(text, 0, i);
  }

  /** Consecutive windows overlap: what window i holds from offset Stride on
      is the beginning of window i + 1; when window i is full, its last
      Width - Stride characters are the first Width - Stride of window i + 1. */
  lemma ChunkOverlap(text: string, i: nat)
    requires i + 1 < |Chunks(text)|
    ensures |Chunks(text)[i]| > Stride
    ensures Chunks(text)[i][Stride..] <= Chunks(text)[i + 1]
    ensures |Chunks(text)[i]| == Width ==>
              |Chunks(text)[i + 1]| >= Width - Stride &&
              Chunks(text)[i][Stride..] == Chunks(text)[i + 1][..Width - Stride]
  {
    ChunkAt(text, i);
    ChunkAt(text, i + 1);
    var c, d := Chunks(text)[i], Chunks(text)[i + 1];
    var lo := Stride * i;
    assert Stride * (i + 1) == lo + Stride;
    assert c[Stride..] == text[lo + Stride .. Min(lo + Width, |text|)];
  }

  /** A text of exactly Width characters already gets a second window, which
      lies entirely inside the first one's overlap. */
  lemma TailInsideOverlap(text: string)
    requires |text| == Width
    ensures |Chunks(text)| == 2
    ensures Chunks(text)[1] == Chunks(text)[0][Stride..]
  {
    ChunkCountIsCeiling(text);
    ChunkAt(text, 0);
    ChunkAt(text, 1);
  }

  /** The fresh part of a window: the characters no later window starts with. */
  function Head(chunk: string): string
  {
    chunk[..Min(Stride, |chunk|)]
  }

  /** Concatenation of the fresh parts of the windows, in order. */
  function Heads(chunks: seq<string>): string
  {
    if chunks == [] then [] else Head(chunks[0]) + Heads(chunks[1..])
  }

  lemma {:induction false} HeadsFrom(text: string, start: nat)
    ensures Heads(ChunksFrom(text, start)) == if start >= |text| then [] else text[start..]
    decreases |text| - start
  {
    if start < |text| {
      var cs := ChunksFrom(text, start);
      assert cs[1..] == ChunksFrom(text, start + Stride);
      HeadsFrom(text, start + Stride);
      var c := cs[0];
      if start + Stride >= |text| {
        assert Head(c) == text[start..];
      } else {
        assert Head(c) == text[start .. start + Stride];
        assert text[start..] == text[start .. start + Stride] + text[start + Stride ..];
      }
    }
  }

  /** No character is lost or reordered: the fresh parts of the windows,
      concatenated in order, give back the text. */
  lemma Reassemble(text: string)
    ensures Heads(Chunks(text)) == text
  {
    HeadsFrom(text, 0);
    assert text[0..] == text;
  }
}
