/** `countTokens` and `splitText` of services/mockApi.ts. The characters/words path packs
    boundary segments greedily into chunks (carrying the tail of each closed chunk into the
    next as overlap), then cuts every chunk into pieces of at most `size` characters; the
    tokens path cuts the text into strides of a computed width. Pieces are then named and
    trimmed. Each loop of the source is a method proved equal to a specification function,
    and the properties of the split are proved about those functions. */
module Splitter {
  import opened Common
  import opened Strings
  import opened Types
  import opened Segmenter

  /** `countTokens`: the mock tokenizer, one token per started group of four characters;
      the encoding is accepted and ignored. */
  function CountTokens(text: string, encoding: string): (n: nat)
    ensures 4 * n - 4 < |text| <= 4 * n
  {
    CeilDiv(|text|, 4)
  }

  // ---------------------------------------------------------------------------
  // Greedy packing (characters / words)

  /** `(overlap > 0 ? chunk.slice(-overlap) : "")`: the tail of a closed chunk that starts the next one. */
  function Carry(chunk: string, overlap: int): (r: string)
    ensures |r| <= |chunk| && r == chunk[|chunk| - |r|..]
    ensures overlap <= 0 ==> r == []
    ensures overlap > 0 ==> |r| == Min(overlap, |chunk|)
  {
    if overlap > 0 then chunk[|chunk| - Min(overlap, |chunk|)..] else []
  }

  /** The chunks the `segments.forEach` loop produces from state (done, cur) on the remaining
      segments, including the final `if (currentChunk.length > 0)` push. */
  function PackFrom(done: seq<string>, cur: string, segs: seq<string>, size: int, overlap: int): seq<string>
    decreases |segs|
  {
    if segs == [] then (if |cur| > 0 then done + [cur] else done)
    else if |cur| > 0 && |cur| + |segs[0]| > size then
      PackFrom(done + [cur], Carry(cur, overlap) + segs[0], segs[1..], size, overlap)
    else
      PackFrom(done, cur + segs[0], segs[1..], size, overlap)
  }

  function Packed(segs: seq<string>, size: int, overlap: int): seq<string>
  {
    PackFrom([], "", segs, size, overlap)
  }

  /** The greedy packing loop of `splitText`. */
  method Pack(segments: seq<string>, size: int, overlap: int) returns (chunks: seq<string>)
    ensures chunks == Packed(segments, size, overlap)
  {
    chunks := [];
    var current := "";
    var i := 0;
    while i < |segments|
      invariant 0 <= i <= |segments|
      invariant PackFrom(chunks, current, segments[i..], size, overlap) == Packed(segments, size, overlap)
    {
      var segment := segments[i];
      assert segments[i..][1..] == segments[i + 1..];
      if |current| > 0 && |current| + |segment| > size {
        chunks := chunks + [current];
        current := Carry(current, overlap) + segment;
      } else {
        current := current + segment;
      }
      i := i + 1;
    }
    if |current| > 0 {
      chunks := chunks + [current];
    }
  }

  /** Each chunk after the first begins with the carry of the chunk before it. */
  predicate Chained(chunks: seq<string>, overlap: int)
    decreases |chunks|
  {
    var n := |chunks|;
    n <= 1 || (Chained(chunks[..n - 1], overlap) && StartsWith(chunks[n - 1], Carry(chunks[n - 2], overlap)))
  }

  predicate AllNonEmpty(xs: seq<string>)
  {
    forall k :: 0 <= k < |xs| ==> xs[k] != []
  }

  /** The chunks with each one's carried prefix removed: the new text each chunk contributes. */
  function Strip(chunks: seq<string>, overlap: int): (r: seq<string>)
    requires Chained(chunks, overlap)
    ensures |r| == |chunks|
  {
    if |chunks| <= 1 then chunks
    else
      var n := |chunks|;
      ChainedLast(chunks, overlap);
      Strip(chunks[..n - 1], overlap) + [chunks[n - 1][|Carry(chunks[n - 2], overlap)|..]]
  }

  /** A chain without its last chunk is a chain, and the last chunk holds the carry. */
  lemma ChainedLast(chunks: seq<string>, overlap: int)
    requires Chained(chunks, overlap) && |chunks| > 1
    ensures Chained(chunks[..|chunks| - 1], overlap)
    ensures |Carry(chunks[|chunks| - 2], overlap)| <= |chunks[|chunks| - 1]|
  {
  }

  /** The part of cur that is new, given the chunks closed before it. */
  function Fresh(done: seq<string>, cur: string, overlap: int): string
    requires done != [] ==> StartsWith(cur, Carry(done[|done| - 1], overlap))
  {
    if done == [] then cur else cur[|Carry(done[|done| - 1], overlap)|..]
  }

  /** The state invariant of the packing loop. */
  predicate PackState(done: seq<string>, cur: string, overlap: int)
  {
    && AllNonEmpty(done)
    && Chained(done, overlap)
    && (done != [] ==> StartsWith(cur, Carry(done[|done| - 1], overlap)))
  }

  /** Closing cur after done keeps the chain and adds cur's new part to the stripped chunks. */
  lemma StripSnoc(done: seq<string>, cur: string, overlap: int)
    requires PackState(done, cur, overlap)
    ensures Chained(done + [cur], overlap)
    ensures Strip(done + [cur], overlap) == Strip(done, overlap) + [Fresh(done, cur, overlap)]
  {
    var d := done + [cur];
    assert d[..|d| - 1] == done;
  }

  lemma {:induction false} PackFromShape(done: seq<string>, cur: string, segs: seq<string>, size: int, overlap: int)
    requires PackState(done, cur, overlap)
    ensures AllNonEmpty(PackFrom(done, cur, segs, size, overlap))
    ensures Chained(PackFrom(done, cur, segs, size, overlap), overlap)
    ensures Concat(Strip(PackFrom(done, cur, segs, size, overlap), overlap))
      == Concat(Strip(done, overlap)) + Fresh(done, cur, overlap) + Concat(segs)
    decreases |segs|, 1
  {
    if segs == [] {
      PackFromEnd(done, cur, overlap);
    } else if |cur| > 0 && |cur| + |segs[0]| > size {
      PackFromClose(done, cur, segs, size, overlap);
    } else {
      PackFromExtend(done, cur, segs, size, overlap);
    }
  }

  /** The end of PackFromShape: the final push of a non-empty current chunk. */
  lemma PackFromEnd(done: seq<string>, cur: string, overlap: int)
    requires PackState(done, cur, overlap)
    ensures var r := PackFrom(done, cur, [], 0, overlap);
      && AllNonEmpty(r) && Chained(r, overlap)
      && Concat(Strip(r, overlap)) == Concat(Strip(done, overlap)) + Fresh(done, cur, overlap)
  {
    var sd := Strip(done, overlap);
    if |cur| > 0 {
      StripSnoc(done, cur, overlap);
      ConcatAppend(sd, [Fresh(done, cur, overlap)]);
      ConcatSingle(Fresh(done, cur, overlap));
    } else {
      assert Fresh(done, cur, overlap) == [];
    }
  }

  /** The step of PackFromShape where the segment is appended to the current chunk. */
  lemma {:induction false} PackFromExtend(done: seq<string>, cur: string, segs: seq<string>, size: int, overlap: int)
    requires PackState(done, cur, overlap)
    requires segs != [] && !(|cur| > 0 && |cur| + |segs[0]| > size)
    ensures AllNonEmpty(PackFrom(done, cur, segs, size, overlap))
    ensures Chained(PackFrom(done, cur, segs, size, overlap), overlap)
    ensures Concat(Strip(PackFrom(done, cur, segs, size, overlap), overlap))
      == Concat(Strip(done, overlap)) + Fresh(done, cur, overlap) + Concat(segs)
    decreases |segs|, 0
  {
    var seg := segs[0];
    var c := cur + seg;
    var sd := Strip(done, overlap);
    FreshExtend(done, cur, seg, overlap);
    var f := Fresh(done, cur, overlap);
    PackFromShape(done, c, segs[1..], size, overlap);
    assert Concat(Strip(PackFrom(done, c, segs[1..], size, overlap), overlap))
      == (Concat(sd) + (f + seg)) + Concat(segs[1..]);
    assert Concat(segs) == seg + Concat(segs[1..]);
    assert PackFrom(done, cur, segs, size, overlap) == PackFrom(done, c, segs[1..], size, overlap);
    SeqAssoc(Concat(sd), Fresh(done, cur, overlap), seg, Concat(segs[1..]));
  }

  /** Closing cur: the new state is a packing state whose current chunk adds seg, and the
      stripped chunks gain cur's new part. */
  lemma CloseStep(done: seq<string>, cur: string, seg: string, overlap: int)
    requires PackState(done, cur, overlap) && |cur| > 0
    ensures PackState(done + [cur], Carry(cur, overlap) + seg, overlap)
    ensures Fresh(done + [cur], Carry(cur, overlap) + seg, overlap) == seg
    ensures Concat(Strip(done + [cur], overlap)) == Concat(Strip(done, overlap)) + Fresh(done, cur, overlap)
  {
    var d := done + [cur];
    var f := Fresh(done, cur, overlap);
    StripSnoc(done, cur, overlap);
    assert PackState(d, Carry(cur, overlap) + seg, overlap) by {
      assert d[|d| - 1] == cur;
      assert forall k :: 0 <= k < |done| ==> d[k] == done[k];
    }
    ConcatAppend(Strip(done, overlap), [f]);
    ConcatSingle(f);
  }

  /** The step of PackFromShape where the current chunk is closed. */
  lemma {:induction false} PackFromClose(done: seq<string>, cur: string, segs: seq<string>, size: int, overlap: int)
    requires PackState(done, cur, overlap)
    requires segs != [] && |cur| > 0 && |cur| + |segs[0]| > size
    ensures AllNonEmpty(PackFrom(done, cur, segs, size, overlap))
    ensures Chained(PackFrom(done, cur, segs, size, overlap), overlap)
    ensures Concat(Strip(PackFrom(done, cur, segs, size, overlap), overlap))
      == Concat(Strip(done, overlap)) + Fresh(done, cur, overlap) + Concat(segs)
    decreases |segs|, 0
  {
    var seg := segs[0];
    var d := done + [cur];
    var c := Carry(cur, overlap) + seg;
    var sd := Strip(done, overlap);
    var f := Fresh(done, cur, overlap);
    CloseStep(done, cur, seg, overlap);
    PackFromShape(d, c, segs[1..], size, overlap);
    assert Concat(segs) == seg + Concat(segs[1..]);
    assert PackFrom(done, cur, segs, size, overlap) == PackFrom(d, c, segs[1..], size, overlap);
    SeqAssoc(Concat(sd), f, seg, Concat(segs[1..]));
  }

  /** Appending to the current chunk keeps its carried prefix and adds to its new part. */
  lemma FreshExtend(done: seq<string>, cur: string, seg: string, overlap: int)
    requires PackState(done, cur, overlap)
    ensures PackState(done, cur + seg, overlap)
    ensures Fresh(done, cur + seg, overlap) == Fresh(done, cur, overlap) + seg
  {
    if done != [] {
      var n := |Carry(done[|done| - 1], overlap)|;
      assert (cur + seg)[..n] == cur[..n];
      assert (cur + seg)[n..] == cur[n..] + seg;
    }
  }

  lemma ConcatSingle(x: string)
    ensures Concat([x]) == x
  {
    assert [x][1..] == [];
  }

  lemma SeqAssoc(a: string, b: string, c: string, d: string)
    ensures (a + b) + c + d == (a + b) + (c + d)
    ensures (a + (b + c)) + d == (a + b) + (c + d)
  {
  }

  /** Packing loses nothing and invents nothing: every chunk is non-empty, every chunk after
      the first begins with the carried tail of the previous one, and with those carried
      prefixes removed the chunks spell out the segments in order. */
  lemma PackedShape(segs: seq<string>, size: int, overlap: int)
    ensures var r := Packed(segs, size, overlap);
      AllNonEmpty(r) && Chained(r, overlap) && Concat(Strip(r, overlap)) == Concat(segs)
  {
    PackFromShape([], "", segs, size, overlap);
  }

  /** Without overlap nothing is carried, so the chunks concatenate to the segments. */
  lemma {:induction false} PackedNoOverlap(segs: seq<string>, size: int, overlap: int)
    requires overlap <= 0
    ensures Concat(Packed(segs, size, overlap)) == Concat(segs)
  {
    var r := Packed(segs, size, overlap);
    PackedShape(segs, size, overlap);
    StripNothing(r, overlap);
  }

  lemma {:induction false} StripNothing(chunks: seq<string>, overlap: int)
    requires overlap <= 0 && Chained(chunks, overlap)
    ensures Strip(chunks, overlap) == chunks
    decreases |chunks|
  {
    if |chunks| > 1 {
      var n := |chunks|;
      StripNothing(chunks[..n - 1], overlap);
      assert chunks == chunks[..n - 1] + [chunks[n - 1]];
    }
  }

  // ---------------------------------------------------------------------------
  // Size enforcement

  /** `for (i = 0; i < c.length; i += size) push(c.substring(i, i + size))`. */
  function Slices(c: string, size: int): (r: seq<string>)
    requires size > 0
    decreases |c|
  {
    if c == [] then []
    else if |c| <= size then [c]
    else [c[..size]] + Slices(c[size..], size)
  }

  /** Slicing cuts c into consecutive pieces of 1 to size characters, all of size characters
      except possibly the last; SlicesCount adds that there are `Math.ceil(c.length / size)` of them. */
  lemma {:induction false} SlicesShape(c: string, size: int)
    requires size > 0
    ensures var r := Slices(c, size);
      && Concat(r) == c
      && (forall k :: 0 <= k < |r| ==> 0 < |r[k]| <= size)
      && (forall k :: 0 <= k < |r| - 1 ==> |r[k]| == size)
    decreases |c|
  {
    var r := Slices(c, size);
    if |c| > size {
      SlicesShape(c[size..], size);
      assert c[..size] + c[size..] == c;
      forall k | 0 < k < |r| ensures r[k] == Slices(c[size..], size)[k - 1] { }
    }
  }

  lemma {:induction false} SlicesCount(c: string, size: int)
    requires size > 0
    ensures |Slices(c, size)| == CeilDiv(|c|, size)
    decreases |c|
  {
    if |c| > size {
      SlicesCount(c[size..], size);
      CeilDivStep(|c|, size);
    } else if c != [] {
      CeilDivOne(|c|, size);
    }
  }

  /** All the pieces of the final pass: each chunk sliced in turn. */
  function EnforceAll(chunks: seq<string>, size: int): seq<string>
    requires size > 0
  {
    if chunks == [] then []
    else EnforceAll(chunks[..|chunks| - 1], size) + Slices(chunks[|chunks| - 1], size)
  }

  /** The final pass: no piece is empty or longer than size, and the pieces put together
      give back the chunks put together. */
  lemma {:induction false} EnforceAllShape(chunks: seq<string>, size: int)
    requires size > 0
    ensures var r := EnforceAll(chunks, size);
      Concat(r) == Concat(chunks) && forall k :: 0 <= k < |r| ==> 0 < |r[k]| <= size
    decreases |chunks|
  {
    if chunks != [] {
      var n := |chunks|;
      var front := EnforceAll(chunks[..n - 1], size);
      var last := Slices(chunks[n - 1], size);
      EnforceAllShape(chunks[..n - 1], size);
      SlicesShape(chunks[n - 1], size);
      ConcatAppend(front, last);
      ConcatAppend(chunks[..n - 1], [chunks[n - 1]]);
      assert chunks[..n - 1] + [chunks[n - 1]] == chunks;
      assert Concat([chunks[n - 1]]) == chunks[n - 1];
      var r := front + last;
      forall k | 0 <= k < |r| ensures 0 < |r[k]| <= size {
        if k >= |front| { assert r[k] == last[k - |front|]; }
      }
    }
  }

  /** The final-pass loop of `splitText`. */
  method Enforce(chunks: seq<string>, size: int) returns (pieces: seq<string>)
    requires size > 0
    ensures pieces == EnforceAll(chunks, size)
  {
    pieces := [];
    var k := 0;
    while k < |chunks|
      invariant 0 <= k <= |chunks|
      invariant pieces == EnforceAll(chunks[..k], size)
    {
      var chunk := chunks[k];
      var i := 0;
      while i < |chunk|
        invariant 0 <= i
        invariant pieces + Slices(chunk[Min(i, |chunk|)..], size) == EnforceAll(chunks[..k], size) + Slices(chunk, size)
        decreases |chunk| - i
      {
        var piece := chunk[i..Min(i + size, |chunk|)];
        assert Slices(chunk[i..], size) == [piece] + Slices(chunk[Min(i + size, |chunk|)..], size) by {
          if |chunk| - i > size {
            assert chunk[i..][..size] == piece;
            assert chunk[i..][size..] == chunk[i + size..];
          } else {
            assert chunk[i..] == piece;
            assert chunk[|chunk|..] == [];
          }
        }
        pieces := pieces + [piece];
        i := i + size;
      }
      assert chunk[Min(i, |chunk|)..] == [];
      assert chunks[..k + 1][..k] == chunks[..k];
      k := k + 1;
    }
    assert chunks[..|chunks|] == chunks;
  }

  // ---------------------------------------------------------------------------
  // Token strides

  /** `Math.ceil(text.length / Math.ceil(countTokens(text) / size))`: the width of a token-path chunk. */
  function CharsPerChunk(text: string, size: int): (cpc: nat)
    requires text != [] && size > 0
    ensures 0 < cpc
  {
    var numChunks := CeilDiv(CountTokens(text, "cl100k_base"), size);
    assert numChunks > 0;
    CeilDiv(|text|, numChunks)
  }

  /** `for (i = from; i < text.length; i += step) push(text.substring(i, i + width))`. */
  function Strides(text: string, from: nat, width: nat, step: nat): seq<string>
    requires step > 0
    decreases |text| - from
  {
    if from >= |text| then []
    else [text[from..Min(from + width, |text|)]] + Strides(text, from + step, width, step)
  }

  /** No piece is empty and none is longer than width. */
  predicate AllWithin(r: seq<string>, width: int)
  {
    forall k :: 0 <= k < |r| ==> 0 < |r[k]| <= width
  }

  /** Every stride is a non-empty slice of the text of at most width characters. */
  lemma {:induction false} StridesShape(text: string, from: nat, width: nat, step: nat)
    requires step > 0 && width > 0
    ensures AllWithin(Strides(text, from, width, step), width)
    decreases |text| - from
  {
    if from < |text| {
      var r := Strides(text, from, width, step);
      var rest := Strides(text, from + step, width, step);
      StridesShape(text, from + step, width, step);
      forall k | 0 < k < |r| ensures 0 < |r[k]| <= width {
        assert r[k] == rest[k - 1];
      }
    }
  }

  /** Without overlap the strides tile the text exactly. */
  lemma {:induction false} StridesTile(text: string, from: nat, width: nat)
    requires width > 0 && from <= |text|
    ensures Concat(Strides(text, from, width, width)) == text[from..]
    decreases |text| - from
  {
    if from < |text| {
      var e := Min(from + width, |text|);
      StridesTile(text, e, width);
      if e == |text| {
        assert Strides(text, from + width, width, width) == [];
      }
      assert text[from..e] + text[e..] == text[from..];
    }
  }

  /** Each stride after the first begins with what remains of the one before it after its
      first `step` characters: with a positive overlap, consecutive chunks share their seam. */
  predicate Seamed(r: seq<string>, step: nat)
  {
    forall k :: 0 <= k < |r| - 1 ==> step <= |r[k]| && StartsWith(r[k + 1], r[k][step..])
  }

  lemma {:induction false} StridesOverlap(text: string, from: nat, width: nat, step: nat)
    requires 0 < step <= width
    ensures Seamed(Strides(text, from, width, step), step)
    decreases |text| - from
  {
    if from < |text| {
      var r := Strides(text, from, width, step);
      var rest := Strides(text, from + step, width, step);
      StridesOverlap(text, from + step, width, step);
      forall k | 0 <= k < |r| - 1 ensures step <= |r[k]| && StartsWith(r[k + 1], r[k][step..]) {
        if k == 0 {
          var e := Min(from + width, |text|);
          assert r[0] == text[from..e];
          assert r[1] == text[from + step..Min(from + step + width, |text|)];
          assert r[0][step..] == text[from + step..e];
        } else {
          assert r[k] == rest[k - 1] && r[k + 1] == rest[k];
        }
      }
    }
  }

  /** The token-path loop of `splitText`. */
  method Stride(text: string, width: nat, step: nat) returns (chunks: seq<string>)
    requires step > 0
    ensures chunks == Strides(text, 0, width, step)
  {
    chunks := [];
    var i: nat := 0;
    while i < |text|
      invariant chunks + Strides(text, i, width, step) == Strides(text, 0, width, step)
      decreases |text| - i
    {
      chunks := chunks + [text[i..Min(i + width, |text|)]];
      i := i + step;
    }
  }

  // ---------------------------------------------------------------------------
  // splitText

  /** The inputs on which `splitText` finishes: blank text returns at once; otherwise the
      slicing loop needs a positive size, and the token loop a stride `charsPerChunk - overlap`
      that moves forward. */
  predicate SplitTerminates(text: string, settings: SplitSettings)
  {
    || IsBlank(text)
    || (&& settings.size > 0
        && (settings.unit == Tokens ==> CharsPerChunk(text, settings.size) > settings.overlap))
  }

  /** The untrimmed chunk contents `splitText` produces. */
  function Pieces(text: string, settings: SplitSettings): seq<string>
    requires SplitTerminates(text, settings)
  {
    if IsBlank(text) then []
    else if settings.unit == Tokens then
      var width := CharsPerChunk(text, settings.size);
      Strides(text, 0, width, width - settings.overlap)
    else
      EnforceAll(Packed(SplitByBoundary(text, settings.boundary), settings.size, settings.overlap), settings.size)
  }

  /** `String(n).padStart(3, '0')`. */
  function Pad3(n: nat): string
  {
    PadStart(NatToString(n), 3, '0')
  }

  /** `split_${String(i + 1).padStart(3, '0')}_of_${String(n).padStart(3, '0')}.txt`. */
  function ChunkName(i: nat, n: nat): string
  {
    "split_" + Pad3(i + 1) + ("_of_" + Pad3(n) + ".txt")
  }

  lemma ChunkNameExample()
    ensures ChunkName(0, 12) == "split_001_of_012.txt"
  {
    assert NatToString(1) == "1";
    assert NatToString(12) == "12";
    assert Pad3(1) == "001";
    assert Pad3(12) == "012";
  }

  /** Different numbers have different padded forms. */
  lemma Pad3Differ(x: nat, y: nat)
    requires x != y
    ensures Pad3(x) != Pad3(y)
  {
    PaddedValue(x, 3);
    PaddedValue(y, 3);
  }

  /** Different positions get different names, so no two output files collide. */
  lemma ChunkNamesDistinct(i: nat, j: nat, n: nat)
    requires i != j
    ensures ChunkName(i, n) != ChunkName(j, n)
  {
    Pad3Differ(i + 1, j + 1);
    FramedDiffer("split_", Pad3(i + 1), Pad3(j + 1), "_of_" + Pad3(n) + ".txt");
  }

  /** Framing two different strings the same way keeps them different. */
  lemma FramedDiffer(pre: string, a: string, b: string, post: string)
    requires a != b
    ensures pre + a + post != pre + b + post
  {
    var x := pre + a + post;
    var y := pre + b + post;
    if |a| == |b| {
      assert x[|pre|..|pre| + |a|] == a;
      assert y[|pre|..|pre| + |b|] == b;
    } else {
      assert |x| != |y|;
    }
  }

  /** `splitText`: the pieces, in order, named by position and total and trimmed. */
  method SplitText(text: string, settings: SplitSettings) returns (out: seq<OutputChunk>)
    requires SplitTerminates(text, settings)
    ensures var pieces := Pieces(text, settings);
      && |out| == |pieces|
      && forall k :: 0 <= k < |out| ==> out[k] == OutputChunk(ChunkName(k, |out|), Trim(pieces[k]))
    ensures IsBlank(text) ==> out == []
  {
    if Trim(text) == [] {
      return [];
    }
    var chunks: seq<string>;
    if settings.unit == Characters || settings.unit == Words {
      var segments := SplitByBoundary(text, settings.boundary);
      var packed := Pack(segments, settings.size, settings.overlap);
      chunks := Enforce(packed, settings.size);
    } else {
      var width := CharsPerChunk(text, settings.size);
      chunks := Stride(text, width, width - settings.overlap);
    }
    assert chunks == Pieces(text, settings);
    if |chunks| == 0 {
      return [];
    }
    out := Named(chunks);
  }

  /** The output list: chunk k named by ChunkName and holding the trimmed text. */
  function Named(chunks: seq<string>): (out: seq<OutputChunk>)
    ensures |out| == |chunks|
    ensures forall k :: 0 <= k < |out| ==> out[k] == OutputChunk(ChunkName(k, |out|), Trim(chunks[k]))
  {
    seq(|chunks|, k requires 0 <= k < |chunks| => OutputChunk(ChunkName(k, |chunks|), Trim(chunks[k])))
  }

  // ---------------------------------------------------------------------------
  // Properties of the whole split

  /** A non-blank text always yields at least one piece and no piece is empty; in the
      characters/words units no piece is longer than size, in the tokens unit none is longer
      than charsPerChunk. */
  lemma PiecesBounded(text: string, settings: SplitSettings)
    requires SplitTerminates(text, settings) && !IsBlank(text)
    ensures var pieces := Pieces(text, settings);
      && pieces != []
      && (forall k :: 0 <= k < |pieces| ==> pieces[k] != [])
      && (settings.unit != Tokens ==> forall k :: 0 <= k < |pieces| ==> |pieces[k]| <= settings.size)
      && (settings.unit == Tokens ==> forall k :: 0 <= k < |pieces| ==> |pieces[k]| <= CharsPerChunk(text, settings.size))
  {
    var pieces := Pieces(text, settings);
    if settings.unit == Tokens {
      var width := CharsPerChunk(text, settings.size);
      StridesShape(text, 0, width, width - settings.overlap);
      assert text != [];
    } else {
      var segs := SplitByBoundary(text, settings.boundary);
      EnforceAllShape(Packed(segs, settings.size, settings.overlap), settings.size);
      SegmentsNonEmpty(text, settings.boundary);
      PackedNonEmpty(segs, settings.size, settings.overlap);
      assert Concat(pieces) != [];
    }
  }

  /** Packing something non-empty gives chunks with something in them. */
  lemma PackedNonEmpty(segs: seq<string>, size: int, overlap: int)
    requires Concat(segs) != []
    ensures Concat(Packed(segs, size, overlap)) != []
  {
    var r := Packed(segs, size, overlap);
    PackedShape(segs, size, overlap);
    if r == [] {
      assert false;
    }
    assert r[0] != [];
  }

  /** The segments of a non-blank text have something in them. */
  lemma SegmentsNonEmpty(text: string, boundary: Boundary)
    requires !IsBlank(text)
    ensures Concat(SplitByBoundary(text, boundary)) != []
  {
    var segs := SplitByBoundary(text, boundary);
    match boundary {
      case Sentence =>
        if SentenceMatches(text) != [] {
          var m := SentenceMatches(text)[0];
          assert m != [] by { var a, b :| SentenceSplit(m, a, b); }
        }
      case Paragraph =>
        ParagraphSegmentsShape(text);
        ParagraphSegmentsExist(text);
        assert !IsBlank(segs[0]);
      case NoBoundary =>
    }
  }

  /** Without a boundary and in the characters/words units the pieces are the text cut into
      consecutive slices of size characters: nothing is lost, reordered or repeated. */
  lemma NoBoundaryPiecesTile(text: string, settings: SplitSettings)
    requires SplitTerminates(text, settings) && !IsBlank(text)
    requires settings.unit != Tokens && settings.boundary == NoBoundary
    ensures Pieces(text, settings) == Slices(text, settings.size)
    ensures Concat(Pieces(text, settings)) == text
  {
    var segs := [text];
    assert segs[1..] == [];
    assert "" + text == text;
    assert Packed(segs, settings.size, settings.overlap) == PackFrom([], text, [], settings.size, settings.overlap);
    assert [text][..0] == [];
    assert EnforceAll([text], settings.size) == Slices(text, settings.size);
    SlicesShape(text, settings.size);
  }

  /** Sentence boundaries without overlap: the pieces concatenate to the text with only some
      `.`, `!` or `?` characters missing (those at which no sentence match could start). */
  lemma SentencePiecesErase(text: string, settings: SplitSettings)
    requires SplitTerminates(text, settings) && !IsBlank(text)
    requires settings.unit != Tokens && settings.boundary == Sentence && settings.overlap <= 0
    ensures Erases(text, Concat(Pieces(text, settings)), IsTerminator)
  {
    var segs := SplitByBoundary(text, Sentence);
    var packed := Packed(segs, settings.size, settings.overlap);
    EnforceAllShape(packed, settings.size);
    PackedNoOverlap(segs, settings.size, settings.overlap);
    if SentenceMatches(text) == [] {
      assert Concat([text]) == text;
      ErasesNothing(text, IsTerminator);
    } else {
      SentenceMatchesErase(text);
    }
  }

  /** Tokens without overlap: the pieces tile the text. */
  lemma TokenPiecesTile(text: string, settings: SplitSettings)
    requires SplitTerminates(text, settings) && !IsBlank(text)
    requires settings.unit == Tokens && settings.overlap == 0
    ensures Concat(Pieces(text, settings)) == text
  {
    StridesTile(text, 0, CharsPerChunk(text, settings.size));
  }
}
