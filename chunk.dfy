/**
 * `_chunk`: normalise the text, return it whole when it fits in `maxChars`,
 * otherwise slide a window of `maxChars` characters forward by
 * `maxChars - overlap` until the window reaches the end of the text.
 */
module Chunking {
  import opened Text

  /** The defaults `_chunk` is called with from the ingest path. */
  const DefaultMaxChars: int := 1200
  const DefaultOverlap: int := 120

  function Min(a: int, b: int): int {
    if a <= b then a else b
  }

  function Max(a: int, b: int): int {
    if a >= b then a else b
  }

  /** The windows the loop emits for the normalised text `t` from offset `start`. */
  function Windows(t: string, start: nat, maxChars: nat, overlap: nat): seq<string>
    requires overlap < maxChars
    decreases |t| - start
  {
    if start >= |t| then []
    else if start + maxChars >= |t| then [t[start..]]
    else [t[start..start + maxChars]] + Windows(t, start + maxChars - overlap, maxChars, overlap)
  }

  /** The chunks of an already normalised text `t`. */
  function ChunksOf(t: string, maxChars: nat, overlap: nat): seq<string>
    requires overlap < maxChars
  {
    if |t| <= maxChars then [t] else Windows(t, 0, maxChars, overlap)
  }

  /** What `_chunk(text, maxChars, overlap)` returns. */
  function ChunkSpec(text: string, maxChars: nat, overlap: nat): seq<string>
    requires overlap < maxChars
  {
    ChunksOf(Normalize(text), maxChars, overlap)
  }

  /** Every chunk after the first with its first `overlap` characters dropped
      (Python's `c[overlap:]`), concatenated. */
  function DropOverlaps(cs: seq<string>, overlap: nat): string {
    if cs == [] then ""
    else cs[0][Min(overlap, |cs[0]|)..] + DropOverlaps(cs[1..], overlap)
  }

  /** The first chunk followed by the non-overlapping tails of the others. */
  function Reassemble(cs: seq<string>, overlap: nat): string {
    if cs == [] then "" else cs[0] + DropOverlaps(cs[1..], overlap)
  }

  /** The offsets at which the windows from `start` begin. */
  function WindowStarts(t: string, start: nat, maxChars: nat, overlap: nat): seq<nat>
    requires overlap < maxChars
    decreases |t| - start
  {
    if start >= |t| then []
    else if start + maxChars >= |t| then [start]
    else [start] + WindowStarts(t, start + maxChars - overlap, maxChars, overlap)
  }

  lemma {:induction false} StartsLength(t: string, start: nat, maxChars: nat, overlap: nat)
    requires overlap < maxChars
    ensures |WindowStarts(t, start, maxChars, overlap)| == |Windows(t, start, maxChars, overlap)|
    ensures start < |t| ==> |Windows(t, start, maxChars, overlap)| > 0 && WindowStarts(t, start, maxChars, overlap)[0] == start
    decreases |t| - start
  {
    if start < |t| && start + maxChars < |t| {
      StartsLength(t, start + maxChars - overlap, maxChars, overlap);
    }
  }

  /** Window `k` of `ws`, beginning at offset `ps[k]`, is the slice of `t`
      from there that is `maxChars` long or reaches the end of the text, and
      only the last window reaches the end; the next window begins
      `maxChars - overlap` further on. */
  predicate WindowShape(t: string, ws: seq<string>, ps: seq<nat>, k: nat, maxChars: nat, overlap: nat)
    requires k < |ws| && |ps| == |ws|
  {
    && ps[k] < |t|
    && ws[k] == t[ps[k]..Min(|t|, ps[k] + maxChars)]
    && (k < |ws| - 1 ==> ps[k] + maxChars < |t| && ps[k + 1] == ps[k] + maxChars - overlap)
    && (k == |ws| - 1 ==> ps[k] + maxChars >= |t|)
  }

  lemma WindowShapeShift(t: string, w: string, ws: seq<string>, p: nat, ps: seq<nat>, k: nat,
                         maxChars: nat, overlap: nat)
    requires 0 < k <= |ws| && |ps| == |ws|
    requires WindowShape(t, ws, ps, k - 1, maxChars, overlap)
    ensures WindowShape(t, [w] + ws, [p] + ps, k, maxChars, overlap)
  {
    assert ([w] + ws)[k] == ws[k - 1];
    assert ([p] + ps)[k] == ps[k - 1];
    if k < |ws| {
      assert ([p] + ps)[k + 1] == ps[k];
    }
  }

  /** Every window has the shape `WindowShape` describes, and the first one
      begins at `start`. */
  lemma {:induction false} WindowAt(t: string, start: nat, maxChars: nat, overlap: nat, k: nat)
    requires overlap < maxChars && start < |t|
    requires k < |Windows(t, start, maxChars, overlap)|
    ensures |WindowStarts(t, start, maxChars, overlap)| == |Windows(t, start, maxChars, overlap)|
    ensures WindowStarts(t, start, maxChars, overlap)[0] == start
    ensures WindowShape(t, Windows(t, start, maxChars, overlap), WindowStarts(t, start, maxChars, overlap), k, maxChars, overlap)
    decreases k
  {
    StartsLength(t, start, maxChars, overlap);
    var ws, ps := Windows(t, start, maxChars, overlap), WindowStarts(t, start, maxChars, overlap);
    if start + maxChars < |t| {
      var next := start + maxChars - overlap;
      var w := t[start..start + maxChars];
      var ws', ps' := Windows(t, next, maxChars, overlap), WindowStarts(t, next, maxChars, overlap);
      assert ws == [w] + ws';
      assert ps == [start] + ps';
      StartsLength(t, next, maxChars, overlap);
      if k > 0 {
        WindowAt(t, next, maxChars, overlap, k - 1);
        WindowShapeShift(t, w, ws', start, ps', k, maxChars, overlap);
      } else {
        assert ws[0] == w && ps[1] == next;
      }
    } else {
      assert ws == [t[start..]];
      assert t[start..] == t[start..Min(|t|, start + maxChars)];
    }
  }

  lemma MulStep(k: nat, step: nat)
    requires k > 0
    ensures (k - 1) * step + step == k * step
  {
  }

  /** Closed form of the offsets: window `k` begins `k * (maxChars - overlap)`
      characters after `start`. */
  lemma {:induction false} WindowStartsClosedForm(t: string, start: nat, maxChars: nat, overlap: nat, k: nat)
    requires overlap < maxChars && start < |t|
    requires k < |WindowStarts(t, start, maxChars, overlap)|
    ensures WindowStarts(t, start, maxChars, overlap)[k] == start + k * (maxChars - overlap)
    decreases k
  {
    StartsLength(t, start, maxChars, overlap);
    if k > 0 {
      WindowAt(t, start, maxChars, overlap, k - 1);
      WindowStartsClosedForm(t, start, maxChars, overlap, k - 1);
      MulStep(k, maxChars - overlap);
    }
  }

  /** Dropping the first `o` characters of `a` in `a + d == x` drops them from `x`. */
  lemma DropFront(a: string, d: string, x: string, o: nat)
    requires a + d == x && o <= |a|
    ensures a[o..] + d == x[o..]
  {
    assert x[o..] == (a + d)[o..];
  }

  /** The windows from `start` reassemble into the text from `start` on. */
  lemma {:induction false} WindowsReassemble(t: string, start: nat, maxChars: nat, overlap: nat)
    requires overlap < maxChars && start < |t|
    ensures Reassemble(Windows(t, start, maxChars, overlap), overlap) == t[start..]
    decreases |t| - start
  {
    if start + maxChars >= |t| {
      assert Windows(t, start, maxChars, overlap) == [t[start..]];
    } else {
      var next := start + maxChars - overlap;
      var rest := Windows(t, next, maxChars, overlap);
      var w := t[start..start + maxChars];
      assert Windows(t, start, maxChars, overlap) == [w] + rest;
      WindowsReassemble(t, next, maxChars, overlap);
      WindowAt(t, next, maxChars, overlap, 0);
      StitchWindow(t, start, maxChars, overlap, rest);
      ReassembleCons(w, rest, overlap);
    }
  }

  lemma ReassembleCons(w: string, rest: seq<string>, overlap: nat)
    ensures Reassemble([w] + rest, overlap) == w + DropOverlaps(rest, overlap)
  {
    assert ([w] + rest)[0] == w && ([w] + rest)[1..] == rest;
  }

  /** One window followed by the reassembled rest with its overlap dropped
      covers the text from the window's start. */
  lemma StitchWindow(t: string, start: nat, maxChars: nat, overlap: nat, rest: seq<string>)
    requires overlap < maxChars && start + maxChars < |t|
    requires rest != [] && |rest[0]| > overlap
    requires Reassemble(rest, overlap) == t[start + maxChars - overlap..]
    ensures t[start..start + maxChars] + DropOverlaps(rest, overlap) == t[start..]
  {
    var next := start + maxChars - overlap;
    var d := DropOverlaps(rest[1..], overlap);
    DropFront(rest[0], d, t[next..], overlap);
    assert DropOverlaps(rest, overlap) == rest[0][overlap..] + d;
    assert t[next..][overlap..] == t[start + maxChars..];
  }

  lemma OfReassemble(t: string, maxChars: nat, overlap: nat)
    requires overlap < maxChars
    ensures Reassemble(ChunksOf(t, maxChars, overlap), overlap) == t
  {
    if |t| > maxChars {
      WindowsReassemble(t, 0, maxChars, overlap);
    }
  }

  lemma OfBounded(t: string, maxChars: nat, overlap: nat)
    requires overlap < maxChars
    ensures |ChunksOf(t, maxChars, overlap)| >= 1
    ensures forall k :: 0 <= k < |ChunksOf(t, maxChars, overlap)| ==> |ChunksOf(t, maxChars, overlap)[k]| <= maxChars
  {
    if |t| > maxChars {
      forall k | 0 <= k < |Windows(t, 0, maxChars, overlap)|
        ensures |Windows(t, 0, maxChars, overlap)[k]| <= maxChars
      {
        WindowAt(t, 0, maxChars, overlap, k);
      }
    }
  }

  /** Round trip: the first chunk followed by each later chunk with its first
      `overlap` characters dropped is exactly the normalised text. */
  lemma ChunksReassemble(text: string, maxChars: nat, overlap: nat)
    requires overlap < maxChars
    ensures Reassemble(ChunkSpec(text, maxChars, overlap), overlap) == Normalize(text)
  {
    OfReassemble(Normalize(text), maxChars, overlap);
  }

  /** No chunk is longer than `maxChars`, and there is at least one chunk. */
  lemma ChunksBounded(text: string, maxChars: nat, overlap: nat)
    requires overlap < maxChars
    ensures |ChunkSpec(text, maxChars, overlap)| >= 1
    ensures forall k :: 0 <= k < |ChunkSpec(text, maxChars, overlap)| ==> |ChunkSpec(text, maxChars, overlap)[k]| <= maxChars
  {
    OfBounded(Normalize(text), maxChars, overlap);
  }

  /** The offsets in the normalised text `t` at which its chunks begin. */
  function ChunkStarts(t: string, maxChars: nat, overlap: nat): seq<nat>
    requires overlap < maxChars
  {
    if |t| <= maxChars then [0] else WindowStarts(t, 0, maxChars, overlap)
  }

  /** Layout of a long normalised text `t`: chunk `k` is the slice that starts
      at offset `k * (maxChars - overlap)`, the next chunk starts
      `maxChars - overlap` after it, every chunk but the last is exactly
      `maxChars` long and the last one ends at the end of the text. */
  lemma ChunkLayout(t: string, maxChars: nat, overlap: nat, k: nat)
    requires overlap < maxChars
    requires |t| > maxChars
    requires k < |ChunksOf(t, maxChars, overlap)|
    ensures var cs, ps := ChunksOf(t, maxChars, overlap), ChunkStarts(t, maxChars, overlap);
      && |ps| == |cs| && ps[0] == 0
      && ps[k] == k * (maxChars - overlap) && ps[k] < |t|
      && cs[k] == t[ps[k]..Min(|t|, ps[k] + maxChars)]
      && (k < |cs| - 1 ==> ps[k + 1] == ps[k] + maxChars - overlap && |cs[k]| == maxChars)
      && (k == |cs| - 1 ==> cs[k] == t[ps[k]..])
  {
    WindowAt(t, 0, maxChars, overlap, k);
    WindowStartsClosedForm(t, 0, maxChars, overlap, k);
  }

  /** One step of the loop: the window at `start`, then those after it. */
  lemma WindowsUnfold(t: string, start: nat, maxChars: nat, overlap: nat)
    requires overlap < maxChars && start < |t|
    ensures start + maxChars >= |t| ==> Windows(t, start, maxChars, overlap) == [t[start..|t|]]
    ensures start + maxChars < |t| ==>
      Windows(t, start, maxChars, overlap)
      == [t[start..start + maxChars]] + Windows(t, start + maxChars - overlap, maxChars, overlap)
  {
    assert t[start..] == t[start..|t|];
  }

  /** `_chunk`: normalise, then cut into windows. */
  method Chunk(text: string, maxChars: int, overlap: int) returns (chunks: seq<string>)
    requires 0 <= overlap < maxChars
    ensures chunks == ChunkSpec(text, maxChars, overlap)
    ensures |chunks| >= 1 && forall k :: 0 <= k < |chunks| ==> |chunks[k]| <= maxChars
    ensures Reassemble(chunks, overlap) == Normalize(text)
  {
    var t := Normalize(text);
    chunks := ChunkNormalized(t, maxChars, overlap);
  }

  /** The body of `_chunk` after normalisation, with its `while` loop. The loop
      terminates only when the window advances, which is what
      `overlap < maxChars` guarantees. */
  method ChunkNormalized(t: string, maxChars: int, overlap: int) returns (chunks: seq<string>)
    requires 0 <= overlap < maxChars
    ensures chunks == ChunksOf(t, maxChars, overlap)
    ensures |t| <= maxChars ==> chunks == [t]
    ensures |chunks| >= 1 && forall k :: 0 <= k < |chunks| ==> |chunks[k]| <= maxChars
    ensures Reassemble(chunks, overlap) == t
  {
    if |t| <= maxChars {
      chunks := [t];
    } else {
      chunks := [];
      var start := 0;
      while start < |t|
        invariant 0 <= start <= |t|
        invariant chunks + Windows(t, start, maxChars, overlap) == Windows(t, 0, maxChars, overlap)
        decreases |t| - start
      {
        var end := Min(|t|, start + maxChars);
        WindowsUnfold(t, start, maxChars, overlap);
        ghost var prev := chunks;
        chunks := chunks + [t[start..end]];
        if end == |t| {
          assert chunks == prev + Windows(t, start, maxChars, overlap);
          break;
        }
        var next := Max(0, end - overlap);
        assert next == start + maxChars - overlap;
        AppendAssoc(prev, [t[start..end]], Windows(t, next, maxChars, overlap));
        start := next;
      }
    }
    OfBounded(t, maxChars, overlap);
    OfReassemble(t, maxChars, overlap);
  }

  lemma AppendAssoc(a: seq<string>, b: seq<string>, c: seq<string>)
    ensures (a + b) + c == a + (b + c)
  {
  }
}
