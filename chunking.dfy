/**
 * The fixed-width slicing `translate_text` applies before translation:
 * `[text[i:i+size] for i in range(0, len(text), size)]` with size 5000.
 */
module Chunking {
  import opened Text

  /** The per-call size limit the script assumes for the translation service. */
  const MaxChunkSize: nat := 5000

  /** Python's `range(start, stop, step)` for a positive step. */
  function Range(start: nat, stop: nat, step: nat): seq<nat>
    requires step > 0
    decreases stop - start
  {
    if start >= stop then [] else [start] + Range(start + step, stop, step)
  }

  /** Python's `s[i:j]` for non-negative bounds: both ends are clamped to `len(s)`. */
  function Slice(s: string, i: nat, j: nat): string
  {
    var lo := if i < |s| then i else |s|;
    var hi := if j < |s| then j else |s|;
    if lo <= hi then s[lo..hi] else ""
  }

  /** `[text[i:i+width] for i in offsets]`: one slice per offset, in offset order. */
  function SliceAt(text: string, offsets: seq<nat>, width: nat): seq<string>
  {
    if offsets == [] then []
    else [Slice(text, offsets[0], offsets[0] + width)] + SliceAt(text, offsets[1..], width)
  }

  /** The comprehension: one slice of `width` characters per offset of `range(0, len(text), width)`. */
  function Chunks(text: string, width: nat): seq<string>
    requires width > 0
  {
    SliceAt(text, Range(0, |text|, width), width)
  }

  /** Slice k of the comprehension is taken at offset k. */
  lemma {:induction false} SliceAtIndex(text: string, offsets: seq<nat>, width: nat, k: nat)
    requires k < |offsets|
    ensures |SliceAt(text, offsets, width)| == |offsets|
    ensures SliceAt(text, offsets, width)[k] == Slice(text, offsets[k], offsets[k] + width)
    decreases |offsets|
  {
    if k > 0 {
      SliceAtIndex(text, offsets[1..], width, k - 1);
    } else if |offsets| > 1 {
      SliceAtIndex(text, offsets[1..], width, 0);
    }
  }

  /** There is one slice per offset. */
  lemma {:induction false} SliceAtLength(text: string, offsets: seq<nat>, width: nat)
    ensures |SliceAt(text, offsets, width)| == |offsets|
    decreases |offsets|
  {
    if offsets != [] {
      SliceAtLength(text, offsets[1..], width);
    }
  }

  /**
   * The range holds start, start + step, start + 2 * step, ... and stops at
   * the first value not below stop: its length is the ceiling of
   * (stop - start) / step.
   */
  lemma {:induction false} RangeShape(start: nat, stop: nat, step: nat)
    requires step > 0
    ensures var r := Range(start, stop, step);
      && (start >= stop ==> |r| == 0)
      && (start < stop ==> (|r| - 1) * step < stop - start <= |r| * step)
      && forall k :: 0 <= k < |r| ==> r[k] == start + k * step && r[k] < stop
    decreases stop - start
  {
    var r := Range(start, stop, step);
    if start < stop {
      var rest := Range(start + step, stop, step);
      RangeShape(start + step, stop, step);
      assert r == [start] + rest;
      var n := |rest|;
      assert (n + 1) * step == n * step + step;
      assert n > 0 ==> (n - 1) * step + step == n * step;
      forall k | 0 < k < |r|
        ensures r[k] == start + k * step && r[k] < stop
      {
        assert r[k] == rest[k - 1];
        assert (k - 1) * step + step == k * step;
      }
    }
  }

  /** Chunk k is the slice of the text from k * width up to (k + 1) * width, cut at the end. */
  lemma ChunkAt(text: string, width: nat, k: nat)
    requires width > 0 && k < |Chunks(text, width)|
    ensures k * width < |text|
    ensures Chunks(text, width)[k] ==
      text[k * width .. if (k + 1) * width < |text| then (k + 1) * width else |text|]
  {
    var offsets := Range(0, |text|, width);
    SliceAtLength(text, offsets, width);
    RangeShape(0, |text|, width);
    SliceAtIndex(text, offsets, width, k);
    var start := offsets[k];
    assert start == k * width && start < |text|;
    MulSucc(k, width);
    assert Chunks(text, width)[k] == Slice(text, start, start + width);
  }

  /** Multiplying by a positive width keeps the order of the factors. */
  lemma MulMonotone(a: nat, b: nat, w: nat)
    requires a <= b
    ensures a * w <= b * w
  {
    assert b * w == a * w + (b - a) * w;
  }

  /** One more chunk covers one more width. */
  lemma MulSucc(a: nat, w: nat)
    ensures (a + 1) * w == a * w + w
  {
  }

  /**
   * There is no chunk exactly when the text is empty; otherwise there are
   * ceil(len / width) of them: the last chunk starts below the end of the
   * text and the chunks together reach it.
   */
  lemma ChunkCount(text: string, width: nat)
    requires width > 0
    ensures var n := |Chunks(text, width)|;
      && (n == 0 <==> text == "")
      && (text != "" ==> (n - 1) * width < |text| <= n * width)
  {
    RangeShape(0, |text|, width);
    SliceAtLength(text, Range(0, |text|, width), width);
  }

  /** Every chunk holds between 1 and width characters; all but the last hold exactly width. */
  lemma ChunkSizes(text: string, width: nat)
    requires width > 0
    ensures var cs := Chunks(text, width);
      forall k :: 0 <= k < |cs| ==>
        && 0 < |cs[k]| <= width
        && (k < |cs| - 1 ==> |cs[k]| == width)
  {
    var cs := Chunks(text, width);
    ChunkCount(text, width);
    forall k | 0 <= k < |cs|
      ensures 0 < |cs[k]| <= width && (k < |cs| - 1 ==> |cs[k]| == width)
    {
      ChunkAt(text, width, k);
      MulSucc(k, width);
      if k < |cs| - 1 {
        MulMonotone(k + 1, |cs| - 1, width);
      }
    }
  }

  /** The first m chunks, put back together, are the first m * width characters of the text. */
  lemma {:induction false} ChunkPrefix(text: string, width: nat, m: nat)
    requires width > 0 && m <= |Chunks(text, width)|
    ensures Concat(Chunks(text, width)[..m]) ==
      text[..if m * width < |text| then m * width else |text|]
  {
    var cs := Chunks(text, width);
    if m == 0 {
      assert cs[..0] == [];
    } else {
      var k := m - 1;
      ChunkPrefix(text, width, k);
      ChunkAt(text, width, k);
      assert cs[..m] == cs[..k] + [cs[k]];
      ConcatAppend(cs[..k], [cs[k]]);
      assert Concat([cs[k]]) == cs[k];
      MulSucc(k, width);
    }
  }

  /** Chunking loses nothing: the chunks concatenated in order are the text. */
  lemma ChunksConcat(text: string, width: nat)
    requires width > 0
    ensures Concat(Chunks(text, width)) == text
  {
    var cs := Chunks(text, width);
    ChunkCount(text, width);
    ChunkPrefix(text, width, |cs|);
    assert cs[..|cs|] == cs;
  }

  /** A non-empty text no wider than one chunk is its own single chunk. */
  lemma SingleChunk(text: string, width: nat)
    requires width > 0 && 0 < |text| <= width
    ensures Chunks(text, width) == [text]
  {
    var cs := Chunks(text, width);
    ChunkCount(text, width);
    var n := |cs|;
    if n > 1 {
      MulMonotone(1, n - 1, width);
      assert false;
    }
    assert n == 1;
    ChunkAt(text, width, 0);
    MulSucc(0, width);
    assert cs[0] == text[0..|text|] == text;
    assert cs == [cs[0]];
  }

  /**
   * With the script's width, `translate_text` makes ceil(len / 5000) chunks
   * of any text: none for the empty text, one for up to 5000 characters.
   */
  lemma MaxChunkCount(text: string)
    ensures |Chunks(text, MaxChunkSize)| == (|text| + MaxChunkSize - 1) / MaxChunkSize
  {
    ChunkCount(text, MaxChunkSize);
  }
}
