// The bookkeeping of pl__add_font_from_file_ttf and pl__build_font_atlas
// that does not go through stb_truetype or stb_rect_pack: turning individual
// characters into ranges, counting the glyphs, sizing and filling the dense
// code-point table, the atlas height taken from the packed rectangles, the
// blit of custom rectangles into the alpha buffer and the expansion of that
// buffer to RGBA. Packing results and glyph metrics are inputs here.
module FontAtlas {
  import opened Common
  import opened DrawText

  // ---------------------------------------------------------------------
  // Ranges, glyph counts and the code-point table
  // ---------------------------------------------------------------------

  /** One range of a single code point for each individual character, in order. */
  function IndividualRanges(chars: seq<nat>): (r: seq<FontRange>)
    ensures |r| == |chars|
    ensures forall i :: 0 <= i < |r| ==> r[i] == FontRange(chars[i], 1)
  {
    if chars == [] then []
    else IndividualRanges(chars[..|chars| - 1]) + [FontRange(chars[|chars| - 1], 1)]
  }

  /** The loop of pl__add_font_from_file_ttf that pushes a count-1 range for each individual character. */
  method ConvertIndividualChars(ranges: seq<FontRange>, chars: seq<nat>) returns (r: seq<FontRange>)
    ensures r == ranges + IndividualRanges(chars)
  {
    r := ranges;
    var i := 0;
    while i < |chars|
      invariant i <= |chars| && r == ranges + IndividualRanges(chars[..i])
    {
      assert chars[..i + 1][..i] == chars[..i];
      r := r + [FontRange(chars[i], 1)];
      i := i + 1;
    }
    assert chars[..|chars|] == chars;
  }

  /** The number of glyphs the ranges ask for: the sum of their counts. */
  function TotalChars(ranges: seq<FontRange>): nat
  {
    if ranges == [] then 0 else TotalChars(ranges[..|ranges| - 1]) + ranges[|ranges| - 1].charCount
  }

  /** Counting the glyphs of two lists of ranges one after the other adds up. */
  lemma {:induction false} TotalCharsAppend(a: seq<FontRange>, b: seq<FontRange>)
    ensures TotalChars(a + b) == TotalChars(a) + TotalChars(b)
    decreases |b|
  {
    if b == [] {
      assert a + b == a;
    } else {
      var b' := b[..|b| - 1];
      assert (a + b)[..|a + b| - 1] == a + b';
      assert (a + b)[|a + b| - 1] == b[|b| - 1];
      TotalCharsAppend(a, b');
    }
  }

  /** Each individual character adds exactly one glyph to the count. */
  lemma {:induction false} IndividualCharsCount(ranges: seq<FontRange>, chars: seq<nat>)
    ensures TotalChars(ranges + IndividualRanges(chars)) == TotalChars(ranges) + |chars|
    decreases |chars|
  {
    TotalCharsAppend(ranges, IndividualRanges(chars));
    IndividualTotal(chars);
  }

  lemma {:induction false} IndividualTotal(chars: seq<nat>)
    ensures TotalChars(IndividualRanges(chars)) == |chars|
    decreases |chars|
  {
    if chars != [] {
      var r := IndividualRanges(chars);
      assert r[..|r| - 1] == IndividualRanges(chars[..|chars| - 1]);
      IndividualTotal(chars[..|chars| - 1]);
    }
  }

  /** The summing loop of pl__add_font_from_file_ttf (totalCharCount). */
  method CountChars(ranges: seq<FontRange>) returns (total: nat)
    ensures total == TotalChars(ranges)
  {
    total := 0;
    var i := 0;
    while i < |ranges|
      invariant i <= |ranges| && total == TotalChars(ranges[..i])
    {
      assert ranges[..i + 1][..i] == ranges[..i];
      total := total + ranges[i].charCount;
      i := i + 1;
    }
    assert ranges[..|ranges|] == ranges;
  }

  /**
   * maxCodePoint: one past the last code point of any range, or 0 without
   * ranges. It is the length the code-point table is resized to.
   */
  function MaxEnd(ranges: seq<FontRange>): (r: nat)
    ensures forall i :: 0 <= i < |ranges| ==> ranges[i].firstCodePoint + ranges[i].charCount <= r
    ensures r == 0 || exists i :: 0 <= i < |ranges| && r == ranges[i].firstCodePoint + ranges[i].charCount
  {
    if ranges == [] then 0
    else
      var m := MaxEnd(ranges[..|ranges| - 1]);
      var last := ranges[|ranges| - 1];
      assert forall i :: 0 <= i < |ranges| - 1 ==> ranges[i] == ranges[..|ranges| - 1][i];
      if last.firstCodePoint + last.charCount > m then last.firstCodePoint + last.charCount else m
  }

  /** Where each range's glyphs start in the font's char data: the glyph count of the ranges before it. */
  function RangeOffset(ranges: seq<FontRange>, i: nat): nat
    requires i <= |ranges|
  {
    TotalChars(ranges[..i])
  }

  /** The glyphs of range i sit right after those of the ranges before it and inside the char data. */
  lemma RangeOffsetsTile(ranges: seq<FontRange>, i: nat)
    requires i < |ranges|
    ensures RangeOffset(ranges, i + 1) == RangeOffset(ranges, i) + ranges[i].charCount
    ensures RangeOffset(ranges, i) + ranges[i].charCount <= TotalChars(ranges)
  {
    assert ranges[..i + 1][..i] == ranges[..i];
    TotalCharsAppend(ranges[..i + 1], ranges[i + 1..]);
    assert ranges[..i + 1] + ranges[i + 1..] == ranges;
  }

  /** How maxCodePoint and the glyph count change when the prefix of the ranges grows by one. */
  lemma PrefixStep(ranges: seq<FontRange>, i: nat)
    requires i < |ranges|
    ensures var end := ranges[i].firstCodePoint + ranges[i].charCount;
      MaxEnd(ranges[..i + 1]) == if end > MaxEnd(ranges[..i]) then end else MaxEnd(ranges[..i])
    ensures TotalChars(ranges[..i + 1]) == TotalChars(ranges[..i]) + ranges[i].charCount
  {
    assert ranges[..i + 1][..i] == ranges[..i];
  }

  /**
   * The range loop of pl__add_font_from_file_ttf: it finds maxCodePoint and
   * points each range at its slice of the char data (ptrFontChar, given here
   * as an offset).
   */
  method RangeLayout(ranges: seq<FontRange>) returns (maxCodePoint: nat, offsets: seq<nat>)
    ensures maxCodePoint == MaxEnd(ranges)
    ensures |offsets| == |ranges| && forall i :: 0 <= i < |ranges| ==> offsets[i] == RangeOffset(ranges, i)
  {
    maxCodePoint := 0;
    offsets := [];
    var total := 0;
    var i := 0;
    while i < |ranges|
      invariant i <= |ranges| && maxCodePoint == MaxEnd(ranges[..i]) && total == TotalChars(ranges[..i])
      invariant |offsets| == i && forall k :: 0 <= k < i ==> offsets[k] == RangeOffset(ranges, k)
    {
      var range := ranges[i];
      PrefixStep(ranges, i);
      if range.firstCodePoint + range.charCount > maxCodePoint {
        maxCodePoint := range.firstCodePoint + range.charCount;
      }
      offsets := offsets + [total];
      total := total + range.charCount;
      i := i + 1;
    }
    assert ranges[..|ranges|] == ranges;
  }

  /** Every code point of every range indexes the table that maxCodePoint sizes. */
  lemma RangedCodePointsFitTable(ranges: seq<FontRange>, c: nat)
    requires exists i :: 0 <= i < |ranges| && InRange(ranges[i], c)
    ensures c < MaxEnd(ranges)
  {
  }

  /** The table with the code points of range r mapped to glyph indices base, base + 1, … */
  function FillRange(table: seq<nat>, r: FontRange, base: nat): (t: seq<nat>)
    requires r.firstCodePoint + r.charCount <= |table|
    ensures |t| == |table|
  {
    seq(|table|, k requires 0 <= k < |table| =>
      if InRange(r, k) then base + k - r.firstCodePoint else table[k])
  }

  /**
   * The code-point table after the glyph loop of pl__build_font_atlas: the
   * ranges in order, each code point mapped to the index of its glyph, the
   * glyphs numbered consecutively across the ranges.
   */
  function FillTable(table: seq<nat>, ranges: seq<FontRange>): (t: seq<nat>)
    requires forall i :: 0 <= i < |ranges| ==> ranges[i].firstCodePoint + ranges[i].charCount <= |table|
    ensures |t| == |table|
  {
    if ranges == [] then table
    else
      var init := ranges[..|ranges| - 1];
      FillRange(FillTable(table, init), ranges[|ranges| - 1], TotalChars(init))
  }

  /** Every ranged code point maps to a glyph that exists. */
  lemma {:induction false} FillTableInRange(table: seq<nat>, ranges: seq<FontRange>, c: nat)
    requires forall i :: 0 <= i < |ranges| ==> ranges[i].firstCodePoint + ranges[i].charCount <= |table|
    requires exists i :: 0 <= i < |ranges| && InRange(ranges[i], c)
    ensures c < |table| && FillTable(table, ranges)[c] < TotalChars(ranges)
    decreases |ranges|
  {
    var init := ranges[..|ranges| - 1];
    var last := ranges[|ranges| - 1];
    if !InRange(last, c) {
      var i :| 0 <= i < |ranges| && InRange(ranges[i], c);
      assert InRange(init[i], c);
      FillTableInRange(table, init, c);
    }
  }

  /**
   * A code point's entry is its glyph in the last range that holds it: the
   * glyph at that range's offset plus the code point's place in the range.
   */
  lemma {:induction false} FillTableLastOwner(table: seq<nat>, ranges: seq<FontRange>, i: nat, c: nat)
    requires forall k :: 0 <= k < |ranges| ==> ranges[k].firstCodePoint + ranges[k].charCount <= |table|
    requires i < |ranges| && InRange(ranges[i], c)
    requires forall k :: i < k < |ranges| ==> !InRange(ranges[k], c)
    ensures FillTable(table, ranges)[c] == RangeOffset(ranges, i) + (c - ranges[i].firstCodePoint)
    decreases |ranges|
  {
    var init := ranges[..|ranges| - 1];
    if i < |ranges| - 1 {
      assert init[..i] == ranges[..i];
      FillTableLastOwner(table, init, i, c);
    } else {
      assert init == ranges[..i];
    }
  }

  /** Code points outside every range keep their entry. */
  lemma {:induction false} FillTableElsewhere(table: seq<nat>, ranges: seq<FontRange>, c: nat)
    requires forall k :: 0 <= k < |ranges| ==> ranges[k].firstCodePoint + ranges[k].charCount <= |table|
    requires c < |table| && forall k :: 0 <= k < |ranges| ==> !InRange(ranges[k], c)
    ensures FillTable(table, ranges)[c] == table[c]
    decreases |ranges|
  {
    if ranges != [] {
      FillTableElsewhere(table, ranges[..|ranges| - 1], c);
    }
  }

  /**
   * A font whose table was resized to maxCodePoint and then filled, with
   * one glyph per ranged code point, is what the text walk relies on:
   * every ranged code point has an entry naming an existing glyph.
   */
  lemma BuiltFontValid(font: Font, table: seq<nat>)
    requires |table| == MaxEnd(font.ranges) && |font.glyphs| == TotalChars(font.ranges)
    requires font.codePoints == FillTable(table, font.ranges)
    ensures FontValid(font)
  {
    forall c: nat | RangeOf(font.ranges, c).Some?
      ensures c < |font.codePoints| && font.codePoints[c] < |font.glyphs|
    {
      var i := RangeOf(font.ranges, c).value;
      FillTableInRange(table, font.ranges, c);
    }
  }

  /** The glyph loop's writes to sbCodePoints for one range, starting at glyph index base. */
  method FillRangeInPlace(table: array<nat>, r: FontRange, base: nat)
    requires r.firstCodePoint + r.charCount <= table.Length
    modifies table
    ensures table[..] == FillRange(old(table[..]), r, base)
  {
    ghost var t0 := table[..];
    var j := 0;
    while j < r.charCount
      invariant j <= r.charCount && table[..] == FillRange(t0, FontRange(r.firstCodePoint, j), base)
    {
      table[r.firstCodePoint + j] := base + j;
      j := j + 1;
    }
  }

  /**
   * The code-point table part of the glyph loop of pl__build_font_atlas:
   * the code points of each range in turn get consecutive glyph indices.
   * The table has the length maxCodePoint gave it, so no write falls
   * outside it.
   */
  method FillCodePoints(table: array<nat>, ranges: seq<FontRange>) returns (glyphCount: nat)
    requires table.Length == MaxEnd(ranges)
    modifies table
    ensures glyphCount == TotalChars(ranges) && table[..] == FillTable(old(table[..]), ranges)
  {
    ghost var t0 := table[..];
    glyphCount := 0;
    var i := 0;
    while i < |ranges|
      invariant i <= |ranges| && glyphCount == TotalChars(ranges[..i])
      invariant table[..] == FillTable(t0, ranges[..i])
    {
      assert ranges[..i + 1][..i] == ranges[..i];
      FillRangeInPlace(table, ranges[i], glyphCount);
      glyphCount := glyphCount + ranges[i].charCount;
      i := i + 1;
    }
    assert ranges[..|ranges|] == ranges;
  }

  // ---------------------------------------------------------------------
  // Atlas height
  // ---------------------------------------------------------------------

  /** A rectangle as stb_rect_pack leaves it: its place, its size and whether it found room. */
  datatype PackedRect = PackedRect(x: nat, y: nat, w: nat, h: nat, wasPacked: bool)

  /** The bottom edge of a rectangle. */
  function Bottom(r: PackedRect): nat
  {
    r.y + r.h
  }

  /**
   * The height after a loop of pl__get_max over the packed rectangles: the
   * lowest bottom edge of any of them, and no less than the height before.
   */
  function MaxBottom(height: nat, rects: seq<PackedRect>): (r: nat)
    ensures height <= r
    ensures forall k :: 0 <= k < |rects| && rects[k].wasPacked ==> Bottom(rects[k]) <= r
    ensures r == height || exists k :: 0 <= k < |rects| && rects[k].wasPacked && r == Bottom(rects[k])
  {
    if rects == [] then height
    else
      var m := MaxBottom(height, rects[..|rects| - 1]);
      var last := rects[|rects| - 1];
      assert forall k :: 0 <= k < |rects| - 1 ==> rects[k] == rects[..|rects| - 1][k];
      if last.wasPacked && Bottom(last) > m then Bottom(last) else m
  }

  /** One of the height loops of pl__build_font_atlas. */
  method GrowHeight(height: nat, rects: seq<PackedRect>) returns (r: nat)
    ensures r == MaxBottom(height, rects)
  {
    r := height;
    var j := 0;
    while j < |rects|
      invariant j <= |rects| && r == MaxBottom(height, rects[..j])
    {
      assert rects[..j + 1][..j] == rects[..j];
      if rects[j].wasPacked && Bottom(rects[j]) > r {
        r := Bottom(rects[j]);
      }
      j := j + 1;
    }
    assert rects[..|rects|] == rects;
  }

  /** A font's packing input: SDF fonts pack through the custom rectangles instead. */
  datatype FontPack = FontPack(sdf: bool, rects: seq<PackedRect>)

  /** The height the bitmap fonts' rectangles need, font by font from 0. */
  function FontsHeight(fonts: seq<FontPack>): (r: nat)
    ensures forall i, k :: 0 <= i < |fonts| && !fonts[i].sdf && 0 <= k < |fonts[i].rects| && fonts[i].rects[k].wasPacked ==>
      Bottom(fonts[i].rects[k]) <= r
  {
    if fonts == [] then 0
    else
      var init := fonts[..|fonts| - 1];
      var last := fonts[|fonts| - 1];
      var m := FontsHeight(init);
      assert forall i :: 0 <= i < |fonts| - 1 ==> fonts[i] == init[i];
      if last.sdf then m else MaxBottom(m, last.rects)
  }

  /**
   * atlasSize[1] as pl__build_font_atlas computes it: the lowest bottom
   * edge of any packed rectangle of a bitmap font or of the custom
   * rectangles, 0 when nothing was packed.
   */
  function AtlasHeight(fonts: seq<FontPack>, custom: seq<PackedRect>): (r: nat)
  {
    MaxBottom(FontsHeight(fonts), custom)
  }

  /** Every packed rectangle lies above the bottom of the atlas. */
  lemma AtlasHeightCovers(fonts: seq<FontPack>, custom: seq<PackedRect>)
    ensures forall i, k :: 0 <= i < |fonts| && !fonts[i].sdf && 0 <= k < |fonts[i].rects| && fonts[i].rects[k].wasPacked ==>
      Bottom(fonts[i].rects[k]) <= AtlasHeight(fonts, custom)
    ensures forall k :: 0 <= k < |custom| && custom[k].wasPacked ==> Bottom(custom[k]) <= AtlasHeight(fonts, custom)
  {
  }

  /** The atlas is no taller than it needs to be: its height is 0 or the bottom of a packed rectangle. */
  lemma {:induction false} AtlasHeightAttained(fonts: seq<FontPack>, custom: seq<PackedRect>)
    ensures var h := AtlasHeight(fonts, custom);
      || h == 0
      || (exists k :: 0 <= k < |custom| && custom[k].wasPacked && h == Bottom(custom[k]))
      || (exists i, k :: 0 <= i < |fonts| && !fonts[i].sdf && 0 <= k < |fonts[i].rects| &&
            fonts[i].rects[k].wasPacked && h == Bottom(fonts[i].rects[k]))
  {
    FontsHeightAttained(fonts);
  }

  lemma {:induction false} FontsHeightAttained(fonts: seq<FontPack>)
    ensures var h := FontsHeight(fonts);
      || h == 0
      || (exists i, k :: 0 <= i < |fonts| && !fonts[i].sdf && 0 <= k < |fonts[i].rects| &&
            fonts[i].rects[k].wasPacked && h == Bottom(fonts[i].rects[k]))
    decreases |fonts|
  {
    if fonts != [] {
      var init := fonts[..|fonts| - 1];
      FontsHeightAttained(init);
      if FontsHeight(fonts) == FontsHeight(init) && FontsHeight(init) != 0 {
        var i, k :| 0 <= i < |init| && !init[i].sdf && 0 <= k < |init[i].rects| &&
          init[i].rects[k].wasPacked && FontsHeight(init) == Bottom(init[i].rects[k]);
        assert fonts[i] == init[i];
      }
    }
  }

  /** The two height loops of pl__build_font_atlas. */
  method ComputeAtlasHeight(fonts: seq<FontPack>, custom: seq<PackedRect>) returns (height: nat)
    ensures height == AtlasHeight(fonts, custom)
  {
    height := 0;
    var i := 0;
    while i < |fonts|
      invariant i <= |fonts| && height == FontsHeight(fonts[..i])
    {
      assert fonts[..i + 1][..i] == fonts[..i];
      if !fonts[i].sdf {
        height := GrowHeight(height, fonts[i].rects);
      }
      i := i + 1;
    }
    assert fonts[..|fonts|] == fonts;
    height := GrowHeight(height, custom);
  }

  // ---------------------------------------------------------------------
  // CPU-side pixel buffers
  // ---------------------------------------------------------------------

  /**
   * The buffer step of pl__build_font_atlas: when pixelDataSize is below
   * the atlas's width * height pixels, both buffers are replaced by zeroed
   * ones of that many pixels (one byte each for alpha, four for RGBA);
   * otherwise they are kept as they are. pixelDataSize becomes the atlas's
   * pixel count either way, so the buffers always hold at least that many.
   */
  method GrowPixelBuffers(alpha: array<byte>, rgba: array<byte>, pixelDataSize: nat, width: nat, height: nat)
    returns (alpha': array<byte>, rgba': array<byte>, size: nat)
    requires pixelDataSize <= alpha.Length && 4 * pixelDataSize <= rgba.Length
    ensures size == width * height && size <= alpha'.Length && 4 * size <= rgba'.Length
    ensures pixelDataSize < size ==>
      fresh(alpha') && fresh(rgba') && alpha'.Length == size && rgba'.Length == 4 * size &&
      (forall k :: 0 <= k < size ==> alpha'[k] == 0) && (forall k :: 0 <= k < 4 * size ==> rgba'[k] == 0)
    ensures size <= pixelDataSize ==> alpha' == alpha && rgba' == rgba
  {
    size := width * height;
    if pixelDataSize < size {
      alpha' := new byte[size](_ => 0);
      rgba' := new byte[4 * size](_ => 0);
    } else {
      alpha', rgba' := alpha, rgba;
    }
  }

  // ---------------------------------------------------------------------
  // Custom rectangles into the alpha buffer
  // ---------------------------------------------------------------------

  /**
   * A custom rectangle (plFontCustomRect): its place in the atlas, its size
   * and its pixels, row after row.
   */
  datatype CustomRect = CustomRect(x: nat, y: nat, width: nat, height: nat, bytes: seq<byte>)

  /** n steps of length step, built by addition: row n of an image step pixels wide starts here. */
  function Stride(step: nat, n: nat): nat
  {
    if n == 0 then 0 else Stride(step, n - 1) + step
  }

  lemma {:induction false} StrideIsProduct(step: nat, n: nat)
    ensures Stride(step, n) == n * step
  {
    if n > 0 {
      StrideIsProduct(step, n - 1);
    }
  }

  lemma {:induction false} StrideAdd(step: nat, a: nat, b: nat)
    ensures Stride(step, a) + Stride(step, b) == Stride(step, a + b)
    decreases b
  {
    if b > 0 {
      StrideAdd(step, a, b - 1);
    }
  }

  lemma {:induction false} StrideMono(step: nat, a: nat, b: nat)
    requires a <= b
    ensures Stride(step, a) <= Stride(step, b)
    decreases b
  {
    if a < b {
      StrideMono(step, a, b - 1);
    }
  }

  /** y * atlasWidth, the first pixel of row y, as the source computes it. */
  method RowStart(atlasWidth: nat, y: nat) returns (r: nat)
    ensures r == Stride(atlasWidth, y)
  {
    r := y * atlasWidth;
    StrideIsProduct(atlasWidth, y);
  }

  /** PixelIndex is row-major order. */
  lemma PixelIndexIsRowMajor(atlasWidth: nat, row: nat, col: nat)
    ensures PixelIndex(atlasWidth, row, col) == row * atlasWidth + col
  {
    StrideIsProduct(atlasWidth, row);
  }

  /** p with src written over it from position at on. */
  function Splice(p: seq<byte>, at: nat, src: seq<byte>): (r: seq<byte>)
    requires at + |src| <= |p|
    ensures |r| == |p|
  {
    seq(|p|, q requires 0 <= q < |p| => if at <= q < at + |src| then src[q - at] else p[q])
  }

  /** Position q of a splice: from src inside the written stretch, from p elsewhere. */
  lemma SpliceAt(p: seq<byte>, at: nat, src: seq<byte>, q: nat)
    requires at + |src| <= |p| && q < |p|
    ensures Splice(p, at, src)[q] == if at <= q < at + |src| then src[q - at] else p[q]
  {
  }

  /** k rows of w positions, the first at at, each next one stride further, end within len. */
  predicate RowsFit(len: nat, stride: nat, at: nat, w: nat, k: nat)
    decreases k
  {
    k == 0 || (at + w <= len && RowsFit(len, stride, at + stride, w, k - 1))
  }

  /**
   * The next k rows of the w-pixel-wide image src written into p: the
   * first at position at, each next one stride further on.
   */
  function BlitRows(p: seq<byte>, stride: nat, at: nat, src: seq<byte>, w: nat, k: nat): (r: seq<byte>)
    requires Stride(w, k) <= |src| && RowsFit(|p|, stride, at, w, k)
    ensures |r| == |p|
    decreases k
  {
    if k == 0 then p
    else BlitRows(Splice(p, at, src[..w]), stride, at + stride, src[w..], w, k - 1)
  }

  /** Positions before the first row keep their value. */
  lemma {:induction false} BlitRowsBefore(p: seq<byte>, stride: nat, at: nat, src: seq<byte>, w: nat, k: nat, q: nat)
    requires Stride(w, k) <= |src| && RowsFit(|p|, stride, at, w, k) && w <= stride && q < at && q < |p|
    ensures BlitRows(p, stride, at, src, w, k)[q] == p[q]
    decreases k
  {
    if k > 0 {
      SpliceAt(p, at, src[..w], q);
      BlitRowsBefore(Splice(p, at, src[..w]), stride, at + stride, src[w..], w, k - 1, q);
    }
  }

  /** Pixel j of row i of the image lands at its place. */
  lemma {:induction false} BlitRowsHit(p: seq<byte>, stride: nat, at: nat, src: seq<byte>, w: nat, k: nat, i: nat, j: nat)
    requires Stride(w, k) <= |src| && RowsFit(|p|, stride, at, w, k) && w <= stride
    requires i < k && j < w
    ensures at + Stride(stride, i) + j < |p| && Stride(w, i) + j < |src|
    ensures BlitRows(p, stride, at, src, w, k)[at + Stride(stride, i) + j] == src[Stride(w, i) + j]
    decreases k
  {
    var p' := Splice(p, at, src[..w]);
    if i == 0 {
      SpliceAt(p, at, src[..w], at + j);
      BlitRowsBefore(p', stride, at + stride, src[w..], w, k - 1, at + j);
    } else {
      BlitRowsHit(p', stride, at + stride, src[w..], w, k - 1, i - 1, j);
    }
  }

  /** A position in no row of the image keeps its value. */
  lemma {:induction false} BlitRowsMiss(p: seq<byte>, stride: nat, at: nat, src: seq<byte>, w: nat, k: nat, q: nat)
    requires Stride(w, k) <= |src| && RowsFit(|p|, stride, at, w, k)
    requires q < |p| && forall i :: 0 <= i < k ==> !(at + Stride(stride, i) <= q < at + Stride(stride, i) + w)
    ensures BlitRows(p, stride, at, src, w, k)[q] == p[q]
    decreases k
  {
    if k > 0 {
      assert !(at + Stride(stride, 0) <= q < at + Stride(stride, 0) + w);
      SpliceAt(p, at, src[..w], q);
      forall i | 0 <= i < k - 1
        ensures !(at + stride + Stride(stride, i) <= q < at + stride + Stride(stride, i) + w)
      {
        assert Stride(stride, i + 1) == Stride(stride, i) + stride;
      }
      BlitRowsMiss(Splice(p, at, src[..w]), stride, at + stride, src[w..], w, k - 1, q);
    }
  }

  /**
   * The rectangle lies inside an atlas atlasWidth pixels wide whose alpha
   * buffer has len bytes, and carries a pixel for each of its cells: its
   * width * height bytes, its last row ending within (y + height) * atlasWidth.
   */
  predicate RectFits(atlasWidth: nat, len: nat, rect: CustomRect)
  {
    rect.x + rect.width <= atlasWidth && |rect.bytes| == Stride(rect.width, rect.height) &&
    Stride(atlasWidth, rect.y + rect.height) <= len
  }

  /** Pixel (row, col) of an atlas atlasWidth pixels wide: row * atlasWidth + col. */
  function PixelIndex(atlasWidth: nat, row: nat, col: nat): nat
  {
    Stride(atlasWidth, row) + col
  }

  /** The rows from row y on of a rectangle that fits lie inside the buffer. */
  lemma {:induction false} RectRows(atlasWidth: nat, len: nat, x: nat, w: nat, y: nat, n: nat)
    requires x + w <= atlasWidth && Stride(atlasWidth, y + n) <= len
    ensures RowsFit(len, atlasWidth, Stride(atlasWidth, y) + x, w, n)
    decreases n
  {
    if n > 0 {
      StrideMono(atlasWidth, y + 1, y + n);
      RectRows(atlasWidth, len, x, w, y + 1, n - 1);
    }
  }

  /** The alpha buffer p after the rectangle's pixels were copied in at its place. */
  function BlitRect(p: seq<byte>, atlasWidth: nat, rect: CustomRect): (r: seq<byte>)
    requires RectFits(atlasWidth, |p|, rect)
    ensures |r| == |p|
  {
    RectRows(atlasWidth, |p|, rect.x, rect.width, rect.y, rect.height);
    BlitRows(p, atlasWidth, PixelIndex(atlasWidth, rect.y, rect.x), rect.bytes, rect.width, rect.height)
  }

  /** Cell (i, j) of the rectangle, byte i * width + j of its pixels, is at pixel (y + i, x + j) of the atlas. */
  lemma BlitRectHit(p: seq<byte>, atlasWidth: nat, rect: CustomRect, i: nat, j: nat)
    requires RectFits(atlasWidth, |p|, rect) && i < rect.height && j < rect.width
    ensures PixelIndex(atlasWidth, rect.y + i, rect.x + j) < |p| && Stride(rect.width, i) + j < |rect.bytes|
    ensures BlitRect(p, atlasWidth, rect)[PixelIndex(atlasWidth, rect.y + i, rect.x + j)] == rect.bytes[Stride(rect.width, i) + j]
  {
    RectRows(atlasWidth, |p|, rect.x, rect.width, rect.y, rect.height);
    StrideAdd(atlasWidth, rect.y, i);
    BlitRowsHit(p, atlasWidth, PixelIndex(atlasWidth, rect.y, rect.x), rect.bytes, rect.width, rect.height, i, j);
  }

  /** The rectangle covers the pixel in the given row and column. */
  predicate Covers(rect: CustomRect, row: nat, col: nat)
  {
    rect.y <= row < rect.y + rect.height && rect.x <= col < rect.x + rect.width
  }

  /** A pixel outside the rectangle keeps its value. */
  lemma BlitRectOutside(p: seq<byte>, atlasWidth: nat, rect: CustomRect, row: nat, col: nat)
    requires RectFits(atlasWidth, |p|, rect) && col < atlasWidth && PixelIndex(atlasWidth, row, col) < |p|
    requires !Covers(rect, row, col)
    ensures BlitRect(p, atlasWidth, rect)[PixelIndex(atlasWidth, row, col)] == p[PixelIndex(atlasWidth, row, col)]
  {
    RectRows(atlasWidth, |p|, rect.x, rect.width, rect.y, rect.height);
    var at := PixelIndex(atlasWidth, rect.y, rect.x);
    var q := PixelIndex(atlasWidth, row, col);
    forall i | 0 <= i < rect.height
      ensures !(at + Stride(atlasWidth, i) <= q < at + Stride(atlasWidth, i) + rect.width)
    {
      StrideAdd(atlasWidth, rect.y, i);
      if row < rect.y + i {
        StrideMono(atlasWidth, row + 1, rect.y + i);
      } else if row > rect.y + i {
        StrideMono(atlasWidth, rect.y + i + 1, row);
      }
    }
    BlitRowsMiss(p, atlasWidth, at, rect.bytes, rect.width, rect.height, q);
  }

  /** The inner loop of the blit: one row of the rectangle copied to position at. */
  method CopyRow(pixels: array<byte>, at: nat, src: seq<byte>)
    requires at + |src| <= pixels.Length
    modifies pixels
    ensures pixels[..] == Splice(old(pixels[..]), at, src)
  {
    ghost var p0 := pixels[..];
    var j := 0;
    while j < |src|
      invariant j <= |src|
      invariant forall q :: 0 <= q < pixels.Length ==> pixels[q] == if at <= q < at + j then src[q - at] else p0[q]
    {
      pixels[at + j] := src[j];
      j := j + 1;
    }
    forall q | 0 <= q < pixels.Length
      ensures pixels[q] == Splice(p0, at, src)[q]
    {
      SpliceAt(p0, at, src, q);
    }
    assert pixels[..] == Splice(p0, at, src);
  }

  /** The rows still to copy fit, and copying them gives goal. */
  predicate RowsReady(p: seq<byte>, stride: nat, at: nat, src: seq<byte>, w: nat, k: nat, goal: seq<byte>)
  {
    Stride(w, k) <= |src| && RowsFit(|p|, stride, at, w, k) && BlitRows(p, stride, at, src, w, k) == goal
  }

  /** One pass of the blit's row loop: the next row copied, the rows after it still to come. */
  method CopyNextRow(pixels: array<byte>, atlasWidth: nat, at: nat, src: seq<byte>, w: nat, ghost k: nat, ghost goal: seq<byte>)
    requires 0 < k && RowsReady(pixels[..], atlasWidth, at, src, w, k, goal)
    modifies pixels
    ensures w <= |src| && RowsReady(pixels[..], atlasWidth, at + atlasWidth, src[w..], w, k - 1, goal)
  {
    CopyRow(pixels, at, src[..w]);
  }

  /**
   * The blit of one custom rectangle in pl__build_font_atlas: row by row,
   * the row's pixels copied to (y + i) * atlasWidth + x on.
   */
  method BlitCustomRect(pixels: array<byte>, atlasWidth: nat, rect: CustomRect)
    requires RectFits(atlasWidth, pixels.Length, rect)
    modifies pixels
    ensures pixels[..] == BlitRect(old(pixels[..]), atlasWidth, rect)
  {
    RectRows(atlasWidth, pixels.Length, rect.x, rect.width, rect.y, rect.height);
    var row: nat := RowStart(atlasWidth, rect.y);
    row := row + rect.x;
    ghost var goal := BlitRows(pixels[..], atlasWidth, row, rect.bytes, rect.width, rect.height);
    assert goal == BlitRect(pixels[..], atlasWidth, rect);
    var srcRow: nat := 0;
    var i := 0;
    ghost var k := rect.height;
    while i < rect.height
      invariant i <= rect.height && k == rect.height - i && srcRow <= |rect.bytes|
      invariant RowsReady(pixels[..], atlasWidth, row, rect.bytes[srcRow..], rect.width, k, goal)
    {
      CopyNextRow(pixels, atlasWidth, row, rect.bytes[srcRow..], rect.width, k, goal);
      assert rect.bytes[srcRow..][rect.width..] == rect.bytes[srcRow + rect.width..];
      row, srcRow, i, k := row + atlasWidth, srcRow + rect.width, i + 1, k - 1;
    }
  }

  /** Every custom rectangle fits the atlas. */
  predicate AllFit(atlasWidth: nat, len: nat, rects: seq<CustomRect>)
  {
    forall k :: 0 <= k < |rects| ==> RectFits(atlasWidth, len, rects[k])
  }

  /** The alpha buffer after the custom rectangles were blitted in order. */
  function BlitAll(p: seq<byte>, atlasWidth: nat, rects: seq<CustomRect>): (r: seq<byte>)
    requires AllFit(atlasWidth, |p|, rects)
    ensures |r| == |p|
  {
    if rects == [] then p
    else BlitRect(BlitAll(p, atlasWidth, rects[..|rects| - 1]), atlasWidth, rects[|rects| - 1])
  }

  /** A pixel no custom rectangle covers keeps its value. */
  lemma {:induction false} BlitAllElsewhere(p: seq<byte>, atlasWidth: nat, rects: seq<CustomRect>, row: nat, col: nat)
    requires AllFit(atlasWidth, |p|, rects) && col < atlasWidth && PixelIndex(atlasWidth, row, col) < |p|
    requires forall k :: 0 <= k < |rects| ==> !Covers(rects[k], row, col)
    ensures BlitAll(p, atlasWidth, rects)[PixelIndex(atlasWidth, row, col)] == p[PixelIndex(atlasWidth, row, col)]
    decreases |rects|
  {
    if rects != [] {
      var init := rects[..|rects| - 1];
      BlitAllElsewhere(p, atlasWidth, init, row, col);
      BlitRectOutside(BlitAll(p, atlasWidth, init), atlasWidth, rects[|rects| - 1], row, col);
    }
  }

  /** A cell of rectangle k that no later rectangle covers holds that rectangle's pixel. */
  lemma {:induction false} BlitAllOwner(p: seq<byte>, atlasWidth: nat, rects: seq<CustomRect>, k: nat, i: nat, j: nat)
    requires AllFit(atlasWidth, |p|, rects) && k < |rects| && i < rects[k].height && j < rects[k].width
    requires forall m :: k < m < |rects| ==> !Covers(rects[m], rects[k].y + i, rects[k].x + j)
    ensures PixelIndex(atlasWidth, rects[k].y + i, rects[k].x + j) < |p| && Stride(rects[k].width, i) + j < |rects[k].bytes|
    ensures BlitAll(p, atlasWidth, rects)[PixelIndex(atlasWidth, rects[k].y + i, rects[k].x + j)] == rects[k].bytes[Stride(rects[k].width, i) + j]
    decreases |rects|
  {
    var init := rects[..|rects| - 1];
    if k == |rects| - 1 {
      BlitRectHit(BlitAll(p, atlasWidth, init), atlasWidth, rects[k], i, j);
    } else {
      assert init[k] == rects[k];
      BlitAllOwner(p, atlasWidth, init, k, i, j);
      BlitRectOutside(BlitAll(p, atlasWidth, init), atlasWidth, rects[|rects| - 1], rects[k].y + i, rects[k].x + j);
    }
  }

  /** The loop of pl__build_font_atlas that rasterizes the custom rectangles. */
  method BlitCustomRects(pixels: array<byte>, atlasWidth: nat, rects: seq<CustomRect>)
    requires AllFit(atlasWidth, pixels.Length, rects)
    modifies pixels
    ensures pixels[..] == BlitAll(old(pixels[..]), atlasWidth, rects)
  {
    ghost var p0 := pixels[..];
    var r := 0;
    while r < |rects|
      invariant r <= |rects| && pixels[..] == BlitAll(p0, atlasWidth, rects[..r])
    {
      assert rects[..r + 1][..r] == rects[..r];
      BlitCustomRect(pixels, atlasWidth, rects[r]);
      r := r + 1;
    }
    assert rects[..|rects|] == rects;
  }

  // ---------------------------------------------------------------------
  // Alpha to RGBA
  // ---------------------------------------------------------------------

  /** Each alpha byte a becomes the white pixel (255, 255, 255, a). */
  function ExpandAlpha(alpha: seq<byte>): (r: seq<byte>)
    ensures |r| == 4 * |alpha|
  {
    if alpha == [] then []
    else ExpandAlpha(alpha[..|alpha| - 1]) + [255, 255, 255, alpha[|alpha| - 1]]
  }

  /** Byte k of the expansion: colour channels are 255, the fourth channel is the alpha of pixel k / 4. */
  lemma {:induction false} ExpandAlphaAt(alpha: seq<byte>, k: nat)
    requires k < 4 * |alpha|
    ensures ExpandAlpha(alpha)[k] == if k % 4 == 3 then alpha[k / 4] else 255
    decreases |alpha|
  {
    var n := |alpha| - 1;
    if k < 4 * n {
      assert alpha[..n][k / 4] == alpha[k / 4];
      ExpandAlphaAt(alpha[..n], k);
    }
  }

  /** The fourth channel of each pixel of an RGBA buffer. */
  function AlphaChannel(rgba: seq<byte>): (r: seq<byte>)
    requires |rgba| % 4 == 0
    ensures |r| == |rgba| / 4
  {
    if rgba == [] then [] else AlphaChannel(rgba[..|rgba| - 4]) + [rgba[|rgba| - 1]]
  }

  /** The alpha buffer can be read back from the RGBA buffer. */
  lemma {:induction false} AlphaRoundTrip(alpha: seq<byte>)
    ensures AlphaChannel(ExpandAlpha(alpha)) == alpha
    decreases |alpha|
  {
    if alpha != [] {
      var n := |alpha| - 1;
      var e := ExpandAlpha(alpha);
      assert e[..|e| - 4] == ExpandAlpha(alpha[..n]);
      AlphaRoundTrip(alpha[..n]);
    }
  }

  /** One pixel of the expansion loop: bytes 4i .. 4i + 3. */
  method StorePixel(rgba: array<byte>, i: nat, a: byte)
    requires 4 * i + 4 <= rgba.Length
    modifies rgba
    ensures rgba[..4 * i + 4] == old(rgba[..4 * i]) + [255, 255, 255, a]
    ensures rgba[4 * i + 4..] == old(rgba[4 * i + 4..])
  {
    rgba[4 * i] := 255;
    rgba[4 * i + 1] := 255;
    rgba[4 * i + 2] := 255;
    rgba[4 * i + 3] := a;
  }

  /**
   * The final loop of pl__build_font_atlas: the first n alpha bytes become
   * the first n RGBA pixels; the rest of the RGBA buffer is untouched.
   */
  method ExpandAlphaToRgba(alpha: array<byte>, rgba: array<byte>, n: nat)
    requires n <= alpha.Length && 4 * n <= rgba.Length && alpha != rgba
    modifies rgba
    ensures rgba[..4 * n] == ExpandAlpha(alpha[..n]) && rgba[4 * n..] == old(rgba[4 * n..])
  {
    var i := 0;
    while i < n
      invariant i <= n && rgba[..4 * i] == ExpandAlpha(alpha[..i]) && rgba[4 * i..] == old(rgba[4 * i..])
    {
      assert alpha[..i + 1][..i] == alpha[..i];
      StorePixel(rgba, i, alpha[i]);
      assert rgba[4 * (i + 1)..] == rgba[4 * i + 4..];
      i := i + 1;
    }
  }
}
