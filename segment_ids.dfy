/** Segment identifiers `"{filename}_{i}"` and per-segment metadata.

    The index is rendered the way Python's `str` renders a non-negative
    integer: decimal digits, most significant first, no leading zero. */
module SegmentIds {

  predicate IsDigit(c: char)
  {
    '0' <= c <= '9'
  }

  predicate AllDigits(s: string)
  {
    forall k :: 0 <= k < |s| ==> IsDigit(s[k])
  }

  function DigitChar(d: nat): (c: char)
    requires d < 10
    ensures IsDigit(c)
  {
    (48 + d) as char
  }

  function DigitValue(c: char): (d: nat)
    requires IsDigit(c)
    ensures d < 10
  {
    (c as int) - 48
  }

  /** Decimal rendering of a natural number. */
  function NatToString(n: nat): (s: string)
    ensures |s| > 0 && AllDigits(s)
    ensures s[0] == '0' <==> n == 0
    decreases n
  {
    if n < 10 then [DigitChar(n)] else NatToString(n / 10) + [DigitChar(n % 10)]
  }

  /** Reading a string of decimal digits back as a number. */
  function ParseNat(s: string): nat
    requires AllDigits(s)
  {
    if s == [] then 0 else ParseNat(s[..|s| - 1]) * 10 + DigitValue(s[|s| - 1])
  }

  /** Reading the rendering of n gives back n. */
  lemma {:induction false} ParseNatToString(n: nat)
    ensures ParseNat(NatToString(n)) == n
    decreases n
  {
    var s := NatToString(n);
    if n >= 10 {
      ParseNatToString(n / 10);
      assert s[..|s| - 1] == NatToString(n / 10);
    }
  }

  /** The id of window `i` of the file `filename`. */
  function SegmentId(filename: string, i: nat): string
  {
    filename + "_" + NatToString(i)
  }

  /** Number of decimal digits at the end of `s`. */
  function TrailingDigits(s: string): (n: nat)
    ensures n <= |s|
  {
    if s == [] || !IsDigit(s[|s| - 1]) then 0 else 1 + TrailingDigits(s[..|s| - 1])
  }

  lemma {:induction false} TrailingDigitsOfId(filename: string, d: string)
    requires AllDigits(d)
    ensures TrailingDigits(filename + "_" + d) == |d|
    decreases |d|
  {
    var s := filename + "_" + d;
    if d == [] {
      assert s[|s| - 1] == '_';
    } else {
      assert s[..|s| - 1] == filename + "_" + d[..|d| - 1];
      TrailingDigitsOfId(filename, d[..|d| - 1]);
    }
  }

  /** The file name an id was built from: everything before the underscore
      that precedes the trailing digits. */
  function IdFile(id: string): string
  {
    var n := TrailingDigits(id);
    if n < |id| then id[..|id| - n - 1] else []
  }

  /** The window index an id was built from: its trailing digits. */
  function IdIndex(id: string): nat
  {
    var n := TrailingDigits(id);
    var digits := id[|id| - n..];
    assert forall k :: 0 <= k < |digits| ==> IsDigit(digits[k]) by {
      TrailingDigitsAreDigits(id);
      assert forall k :: 0 <= k < |digits| ==> digits[k] == id[|id| - n + k];
    }
    ParseNat(digits)
  }

  lemma {:induction false} TrailingDigitsAreDigits(s: string)
    ensures forall p :: |s| - TrailingDigits(s) <= p < |s| ==> IsDigit(s[p])
    decreases |s|
  {
    if s != [] && IsDigit(s[|s| - 1]) {
      var t := s[..|s| - 1];
      TrailingDigitsAreDigits(t);
      forall p | |s| - TrailingDigits(s) <= p < |s| - 1
        ensures IsDigit(s[p])
      {
        assert s[p] == t[p];
      }
    }
  }

  /** An id can be taken apart again into its file name and window index. */
  lemma SegmentIdRoundTrip(filename: string, i: nat)
    ensures IdFile(SegmentId(filename, i)) == filename
    ensures IdIndex(SegmentId(filename, i)) == i
  {
    var d := NatToString(i);
    var s := SegmentId(filename, i);
    TrailingDigitsOfId(filename, d);
    assert s[..|s| - |d| - 1] == filename;
    assert s[|s| - |d|..] == d;
    ParseNatToString(i);
  }

  /** Two ids are equal exactly when they name the same window of the same
      file, also across files. */
  lemma SegmentIdInjective(f1: string, i: nat, f2: string, j: nat)
    ensures SegmentId(f1, i) == SegmentId(f2, j) <==> f1 == f2 && i == j
  {
    SegmentIdRoundTrip(f1, i);
    SegmentIdRoundTrip(f2, j);
  }

  /** The ids of the first n windows of `filename`, as the id comprehension
      builds them. */
  function Ids(filename: string, n: nat): seq<string>
  {
    seq(n, (i: int) requires 0 <= i => SegmentId(filename, i))
  }

  /** Metadata stored beside every window. */
  datatype Metadata = Metadata(source: string)

  /** One metadata record per window, each naming the file. */
  function Metadatas(filename: string, n: nat): seq<Metadata>
  {
    seq(n, _ => Metadata(filename))
  }

  /** The ids of one file are pairwise distinct and all have the form
      `filename + "_" + str(i)`; every metadata record names the file. */
  lemma IdsAndMetadatas(filename: string, n: nat)
    ensures |Ids(filename, n)| == n && |Metadatas(filename, n)| == n
    ensures forall i :: 0 <= i < n ==> Ids(filename, n)[i] == filename + "_" + NatToString(i)
    ensures forall i, j :: 0 <= i < n && 0 <= j < n && i != j ==> Ids(filename, n)[i] != Ids(filename, n)[j]
    ensures forall i :: 0 <= i < n ==> Metadatas(filename, n)[i].source == filename
  {
    forall i, j | 0 <= i < n && 0 <= j < n && i != j
      ensures Ids(filename, n)[i] != Ids(filename, n)[j]
    {
      SegmentIdInjective(filename, i, filename, j);
    }
  }
}
