// The text walk of pl__add_text_ex and pl__add_text_clipped_ex: a loop over
// the bytes of a string that decodes code points, finds each one's glyph by a
// linear scan of the font's ranges, moves a pen, and emits one textured quad
// per drawable glyph into a layer. Glyph positions and UVs are vertex contents
// and are not modelled; the pen is, because the clipped variant's gate and the
// wrap test depend on it.
module DrawText {
  import opened Common
  import opened Geometry
  import opened DrawModel
  import opened Draw

  /** plFontRange: the code points [firstCodePoint, firstCodePoint + charCount). */
  datatype FontRange = FontRange(firstCodePoint: nat, charCount: nat)

  /**
   * The metrics of a glyph that steer the walk: its right edge, its advance
   * and its left side bearing (all in font units, before scaling). Its other
   * corners and UVs only feed vertex contents.
   */
  datatype Glyph = Glyph(x1: real, xAdvance: real, leftBearing: real)

  /**
   * plFont as the walk reads it: the configured ranges, the dense code-point
   * table (sbCodePoints) into the glyph list, the configured size and line
   * spacing, the SDF flag and the texture of the font's parent atlas.
   */
  datatype Font = Font(
    ranges: seq<FontRange>,
    codePoints: seq<nat>,
    glyphs: seq<Glyph>,
    fontSize: real,
    lineSpacing: real,
    sdf: bool,
    texture: TextureId)

  predicate InRange(r: FontRange, c: nat)
  {
    r.firstCodePoint <= c < r.firstCodePoint + r.charCount
  }

  /** The first range, from index i on, that holds c. */
  function RangeFrom(ranges: seq<FontRange>, c: nat, i: nat): (r: Option<nat>)
    requires i <= |ranges|
    ensures r.Some? ==> i <= r.value < |ranges| && InRange(ranges[r.value], c) &&
                        forall k :: i <= k < r.value ==> !InRange(ranges[k], c)
    ensures r.None? ==> forall k :: i <= k < |ranges| ==> !InRange(ranges[k], c)
    decreases |ranges| - i
  {
    if i == |ranges| then None
    else if InRange(ranges[i], c) then Some(i)
    else RangeFrom(ranges, c, i + 1)
  }

  /** The range that owns code point c: the first one holding it, or none. */
  function RangeOf(ranges: seq<FontRange>, c: nat): Option<nat>
  {
    RangeFrom(ranges, c, 0)
  }

  /**
   * The atlas has filled the code-point table for every ranged code point
   * with the index of an existing glyph.
   */
  ghost predicate FontValid(font: Font)
  {
    forall c: nat {:trigger RangeOf(font.ranges, c)} :: RangeOf(font.ranges, c).Some? ==>
      c < |font.codePoints| && font.codePoints[c] < |font.glyphs|
  }

  function GlyphFor(font: Font, c: nat): Glyph
    requires FontValid(font) && RangeOf(font.ranges, c).Some?
  {
    font.glyphs[font.codePoints[c]]
  }

  /** The glyph-range scan of the walk: the index of the first range that holds c. */
  method FindRange(ranges: seq<FontRange>, c: nat) returns (r: Option<nat>)
    ensures r == RangeOf(ranges, c)
  {
    var i := 0;
    while i < |ranges|
      invariant 0 <= i <= |ranges|
      invariant RangeFrom(ranges, c, i) == RangeOf(ranges, c)
    {
      if ranges[i].firstCodePoint <= c && c < ranges[i].firstCodePoint + ranges[i].charCount {
        return Some(i);
      }
      i := i + 1;
    }
    return None;
  }

  // ---------------------------------------------------------------------------
  // Code points
  // ---------------------------------------------------------------------------

  /** What the UTF-8 decoder reports: a code point and the bytes it used. */
  datatype Decoded = Decoded(codePoint: nat, length: nat)

  /** One step of the walk's cursor: a byte below 0x80 is its own code point. */
  function NextCodePoint(text: seq<byte>, i: nat, decode: seq<byte> -> Decoded): Decoded
    requires i < |text|
  {
    if text[i] < 0x80 then Decoded(text[i], 1) else decode(text[i..])
  }

  /**
   * Whether the walk ends at byte i: the decoder reported 0 (malformed
   * input). A decoder result that consumes no byte also ends it here; the
   * source would revisit the same byte forever.
   */
  predicate Stops(text: seq<byte>, i: nat, decode: seq<byte> -> Decoded)
    requires i < |text|
  {
    text[i] >= 0x80 && (decode(text[i..]).codePoint == 0 || decode(text[i..]).length == 0)
  }

  /**
   * The code points the walk visits from byte i on. A 0 byte below 0x80 does
   * not stop it.
   */
  function CodePoints(text: seq<byte>, i: nat, decode: seq<byte> -> Decoded): (r: seq<nat>)
    ensures |r| + i <= |text| || r == []
    decreases |text| - i
  {
    if i >= |text| then []
    else
      var d := NextCodePoint(text, i, decode);
      if Stops(text, i, decode) then []
      else [d.codePoint] + CodePoints(text, i + d.length, decode)
  }

  /** Pure ASCII text is walked byte for byte. */
  lemma {:induction false} AsciiCodePoints(text: seq<byte>, i: nat, decode: seq<byte> -> Decoded)
    requires i <= |text|
    requires forall k :: i <= k < |text| ==> text[k] < 0x80
    ensures CodePoints(text, i, decode) == text[i..]
    decreases |text| - i
  {
    if i < |text| {
      AsciiCodePoints(text, i + 1, decode);
      assert text[i..] == [text[i]] + text[i + 1..];
    }
  }

  /** '\n' and '\r' are handled without a glyph; every other code point needs one. */
  predicate Missing(font: Font, c: nat)
  {
    c != 10 && c != 13 && RangeOf(font.ranges, c).None?
  }

  /** A code point that gets a quad when the gate lets it: ranged, and not '\n', '\r' or ' '. */
  predicate Drawable(font: Font, c: nat)
  {
    c != 10 && c != 13 && c != 32 && RangeOf(font.ranges, c).Some?
  }

  /** Whether the walk meets a code point for which the "Glyph not found" assertion fires. */
  function AnyMissing(font: Font, cps: seq<nat>): (r: bool)
    ensures r <==> exists k :: 0 <= k < |cps| && Missing(font, cps[k])
  {
    if |cps| == 0 then false
    else
      assert forall k :: 1 <= k < |cps| ==> cps[k] == cps[1..][k - 1];
      Missing(font, cps[0]) || AnyMissing(font, cps[1..])
  }

  /** The number of drawable code points. */
  function CountDrawable(font: Font, cps: seq<nat>): (r: nat)
    ensures r <= |cps|
    ensures r == 0 <==> forall k :: 0 <= k < |cps| ==> !Drawable(font, cps[k])
  {
    if |cps| == 0 then 0
    else
      assert forall k :: 1 <= k < |cps| ==> cps[k] == cps[1..][k - 1];
      (if Drawable(font, cps[0]) then 1 else 0) + CountDrawable(font, cps[1..])
  }

  // ---------------------------------------------------------------------------
  // The pen
  // ---------------------------------------------------------------------------

  /**
   * The inputs fixed for one call: the font, the scale (size over the font's
   * configured size, or 1 when no size is given), the scaled line spacing,
   * the start position, the wrap width, and the clip rectangle of the
   * clipped variant.
   */
  datatype TextParams = TextParams(font: Font, scale: real, lineSpacing: real, origin: Vec2,
                                   wrap: real, clip: Option<Rect>)

  function Params(font: Font, size: real, p: Vec2, wrap: real, clip: Option<Rect>): (r: TextParams)
    requires size > 0.0 ==> font.fontSize != 0.0
    ensures r.font == font && r.origin == p && r.wrap == wrap && r.clip == clip
    ensures size <= 0.0 ==> r.scale == 1.0 && r.lineSpacing == font.lineSpacing
    ensures size > 0.0 ==> r.scale * font.fontSize == size && r.lineSpacing == r.scale * font.lineSpacing
  {
    var scale := if size > 0.0 then size / font.fontSize else 1.0;
    TextParams(font, scale, scale * font.lineSpacing, p, wrap, clip)
  }

  /** The pen position and whether no glyph has been placed yet. */
  datatype Pen = Pen(pos: Vec2, first: bool)

  /**
   * Placing glyph g: the first glyph is moved right by a positive left side
   * bearing; a glyph whose right edge passes the wrap width starts a new line;
   * then the pen advances.
   */
  function GlyphAdvance(tp: TextParams, pen: Pen, g: Glyph): Pen
  {
    var x := if pen.first && g.leftBearing > 0.0 then pen.pos.x + g.leftBearing * tp.scale else pen.pos.x;
    var wrapped := tp.wrap > 0.0 && x + g.x1 * tp.scale > tp.origin.x + tp.wrap;
    var x' := if wrapped then tp.origin.x else x;
    var y' := if wrapped then pen.pos.y + tp.lineSpacing else pen.pos.y;
    Pen(Vec2(x' + g.xAdvance * tp.scale, y'), false)
  }

  /** The pen after code point c. */
  function PenAfter(tp: TextParams, pen: Pen, c: nat): Pen
    requires FontValid(tp.font)
  {
    if c == 10 then Pen(Vec2(tp.origin.x, pen.pos.y + tp.lineSpacing), pen.first)
    else if c == 13 then pen
    else if RangeOf(tp.font.ranges, c).None? then pen
    else GlyphAdvance(tp, pen, GlyphFor(tp.font, c))
  }

  /** Whether code point c, met with this pen, emits a quad: drawable, and inside the clip if any. */
  predicate Emits(tp: TextParams, pen: Pen, c: nat)
    requires FontValid(tp.font)
  {
    Drawable(tp.font, c) && (tp.clip.None? || Contains(tp.clip.value, PenAfter(tp, pen, c).pos))
  }

  /** The number of quads the walk emits for the code points cps, starting with this pen. */
  function Quads(tp: TextParams, pen: Pen, cps: seq<nat>): nat
    requires FontValid(tp.font)
    decreases |cps|
  {
    if |cps| == 0 then 0
    else (if Emits(tp, pen, cps[0]) then 1 else 0) + Quads(tp, PenAfter(tp, pen, cps[0]), cps[1..])
  }

  /** The clip gate only removes quads: never more than one per drawable code point. */
  lemma {:induction false} ClippedQuadsAtMostDrawable(tp: TextParams, pen: Pen, cps: seq<nat>)
    requires FontValid(tp.font)
    ensures Quads(tp, pen, cps) <= CountDrawable(tp.font, cps)
    decreases |cps|
  {
    if |cps| > 0 {
      ClippedQuadsAtMostDrawable(tp, PenAfter(tp, pen, cps[0]), cps[1..]);
    }
  }

  /**
   * Without a clip rectangle the walk emits exactly one quad per drawable
   * code point, wherever the pen goes.
   */
  lemma {:induction false} UnclippedQuadsCountDrawable(tp: TextParams, pen: Pen, cps: seq<nat>)
    requires FontValid(tp.font) && tp.clip.None?
    ensures Quads(tp, pen, cps) == CountDrawable(tp.font, cps)
    decreases |cps|
  {
    if |cps| > 0 {
      UnclippedQuadsCountDrawable(tp, PenAfter(tp, pen, cps[0]), cps[1..]);
    }
  }

  // ---------------------------------------------------------------------------
  // The layer after n glyph quads
  // ---------------------------------------------------------------------------

  /**
   * n glyph quads, each prepared with the font's texture and SDF flag,
   * reserving 6 indices and 4 vertices, and appending the glyph triangles
   * (1,0,2), (2,0,3) over its own four vertices.
   */
  function Glyphs(s: LayerState, texture: TextureId, sdf: bool, clip: Rect, n: nat): (r: LayerState)
    requires WellFormed(s)
    ensures WellFormed(r)
  {
    if n == 0 then s
    else
      var t := Glyphs(s, texture, sdf, clip, n - 1);
      Emit(t, texture, sdf, clip, 6, 4, GlyphIndices(t.vertexBufferSize))
  }

  /** n glyphs add 6n indices after the existing ones, and 4n vertices. */
  lemma {:induction false} GlyphsCounts(s: LayerState, texture: TextureId, sdf: bool, clip: Rect, n: nat)
    requires WellFormed(s)
    ensures var r := Glyphs(s, texture, sdf, clip, n);
            |r.indices| == |s.indices| + 6 * n && r.indices[..|s.indices|] == s.indices &&
            r.vertexBufferSize == s.vertexBufferSize + 4 * n && r.vertexCount == s.vertexCount + 4 * n &&
            r.pathLength == s.pathLength
  {
    if n > 0 {
      GlyphsCounts(s, texture, sdf, clip, n - 1);
      var t := Glyphs(s, texture, sdf, clip, n - 1);
      var r := Glyphs(s, texture, sdf, clip, n);
      assert r.indices == t.indices + GlyphIndices(t.vertexBufferSize);
      assert r.indices[..|s.indices|] == t.indices[..|s.indices|];
    }
  }

  /**
   * A whole text goes into one draw command: the one the first glyph
   * prepares, whose element count grows by six per glyph.
   */
  lemma {:induction false} GlyphsShareOneCommand(s: LayerState, texture: TextureId, sdf: bool, clip: Rect, n: nat)
    requires WellFormed(s) && n >= 1
    ensures var p := Prepared(s, texture, sdf, clip);
            var r := Glyphs(s, texture, sdf, clip, n);
            r.commands == p.commands[|p.commands| - 1 := Last(p).(elementCount := Last(p).elementCount + 6 * n)]
  {
    var p := Prepared(s, texture, sdf, clip);
    if n == 1 {
      assert Glyphs(s, texture, sdf, clip, 1) == Appended(Reserved(p, 6, 4), 4, GlyphIndices(s.vertexBufferSize));
    } else {
      GlyphsShareOneCommand(s, texture, sdf, clip, n - 1);
      assert Last(p).textureId == texture && Last(p).sdf == sdf && Last(p).clip == clip;
      var t := Glyphs(s, texture, sdf, clip, n - 1);
      assert t.hasLast;
      assert Last(t) == Last(p).(elementCount := Last(p).elementCount + 6 * (n - 1));
      assert Prepared(t, texture, sdf, clip) == t;
      assert Glyphs(s, texture, sdf, clip, n) == Appended(Reserved(t, 6, 4), 4, GlyphIndices(t.vertexBufferSize));
    }
  }

  /** Glyph quads keep each command's element count equal to the indices it covers. */
  lemma {:induction false} GlyphsKeepTiling(s: LayerState, texture: TextureId, sdf: bool, clip: Rect, n: nat)
    requires WellFormed(s) && Tiled(s)
    ensures Tiled(Glyphs(s, texture, sdf, clip, n))
  {
    if n > 0 {
      GlyphsKeepTiling(s, texture, sdf, clip, n - 1);
      var t := Glyphs(s, texture, sdf, clip, n - 1);
      EmitKeepsTiling(t, texture, sdf, clip, 6, 4, GlyphIndices(t.vertexBufferSize));
    }
  }

  /** Glyph quads only name the four vertices each appends. */
  lemma {:induction false} GlyphsKeepIndicesValid(s: LayerState, texture: TextureId, sdf: bool, clip: Rect, n: nat)
    requires WellFormed(s) && IndicesValid(s)
    ensures IndicesValid(Glyphs(s, texture, sdf, clip, n))
  {
    if n > 0 {
      GlyphsKeepIndicesValid(s, texture, sdf, clip, n - 1);
      var t := Glyphs(s, texture, sdf, clip, n - 1);
      EmitKeepsIndicesValid(t, texture, sdf, clip, 6, 4, GlyphIndices(t.vertexBufferSize));
    }
  }

  // ---------------------------------------------------------------------------
  // The walk
  // ---------------------------------------------------------------------------

  /**
   * One glyph quad on top of the n already emitted: prepare, reserve 6
   * indices and 4 vertices, append them.
   */
  method EmitGlyph(layer: DrawLayer, texture: TextureId, sdf: bool, ghost s0: LayerState, ghost n: nat)
    requires layer.Valid() && WellFormed(s0)
    requires layer.Snapshot() == Glyphs(s0, texture, sdf, layer.drawlist.CurrentClip(), n)
    modifies layer`commandBuffer, layer`hasLastCommand, layer`vertexCount, layer`indexBuffer
    modifies layer.drawlist`vertexBufferSize
    ensures layer.Valid()
    ensures layer.Snapshot() == Glyphs(s0, texture, sdf, layer.drawlist.CurrentClip(), n + 1)
  {
    ghost var clip := layer.drawlist.CurrentClip();
    layer.Prepare(texture, sdf);
    layer.Reserve(6, 4);
    ghost var reserved := layer.Snapshot();
    var vertexStart := layer.drawlist.vertexBufferSize;
    layer.AddVertex();
    layer.AddVertex();
    layer.AddVertex();
    layer.AddVertex();
    layer.AddIndex(vertexStart, 1, 0, 2);
    layer.AddIndex(vertexStart, 2, 0, 3);
    assert layer.Snapshot() == Appended(reserved, 4, GlyphIndices(vertexStart));
  }

  /** The pen arithmetic for one found glyph g. */
  method PlaceGlyph(tp: TextParams, x: real, y: real, first: bool, g: Glyph) returns (x': real, y': real)
    ensures Pen(Vec2(x', y'), false) == GlyphAdvance(tp, Pen(Vec2(x, y), first), g)
  {
    x', y' := x, y;
    if first {
      if g.leftBearing > 0.0 {
        x' := x' + g.leftBearing * tp.scale;
      }
    }
    var x1 := x' + g.x1 * tp.scale;
    if tp.wrap > 0.0 && x1 > tp.origin.x + tp.wrap {
      x', y' := tp.origin.x, y' + tp.lineSpacing;
    }
    x' := x' + g.xAdvance * tp.scale;
  }

  /**
   * The head of the walk's loop at byte i: a byte below 0x80 is taken as it
   * is and advances one byte; any other goes to the decoder, whose 0 result
   * stops the walk (as does one that consumes nothing).
   */
  method DecodeAt(text: seq<byte>, i: nat, decode: seq<byte> -> Decoded) returns (c: nat, next: nat, stop: bool)
    requires i < |text|
    ensures stop <==> CodePoints(text, i, decode) == []
    ensures !stop ==> i < next && CodePoints(text, i, decode) == [c] + CodePoints(text, next, decode)
  {
    if text[i] < 0x80 {
      c, next, stop := text[i], i + 1, false;
    } else {
      var d := decode(text[i..]);
      c, next := d.codePoint, i + d.length;
      stop := c == 0 || d.length == 0;
    }
  }

  /** The walk's effect on one code point followed by the rest. */
  lemma WalkStep(tp: TextParams, pen: Pen, c: nat, rest: seq<nat>)
    requires FontValid(tp.font)
    ensures Quads(tp, pen, [c] + rest) == (if Emits(tp, pen, c) then 1 else 0) + Quads(tp, PenAfter(tp, pen, c), rest)
    ensures AnyMissing(tp.font, [c] + rest) == (Missing(tp.font, c) || AnyMissing(tp.font, rest))
  {
    assert ([c] + rest)[1..] == rest;
  }

  /**
   * The body of the walk for one code point c: '\n' starts a new line, '\r'
   * is skipped, and any other code point is looked up; a found glyph moves
   * the pen and is to be emitted unless it is a space or falls outside the
   * clip rectangle.
   */
  method PenStep(tp: TextParams, x: real, y: real, first: bool, c: nat)
    returns (x': real, y': real, first': bool, missing: bool, emit: bool)
    requires FontValid(tp.font)
    ensures Pen(Vec2(x', y'), first') == PenAfter(tp, Pen(Vec2(x, y), first), c)
    ensures missing == Missing(tp.font, c)
    ensures emit == Emits(tp, Pen(Vec2(x, y), first), c)
  {
    x', y', first', missing, emit := x, y, first, false, false;
    if c == 10 {
      x', y' := tp.origin.x, y + tp.lineSpacing;
    } else if c == 13 {
    } else {
      var k := FindRange(tp.font.ranges, c);
      if k.Some? {
        x', y' := PlaceGlyph(tp, x, y, first, GlyphFor(tp.font, c));
        first' := false;
        emit := c != 32 && (tp.clip.None? || Contains(tp.clip.value, Vec2(x', y')));
      } else {
        missing := true;
      }
    }
  }

  /** One code point of the walk: the pen step, then the glyph quad if one is due. */
  method WalkCodePoint(layer: DrawLayer, tp: TextParams, x: real, y: real, first: bool, c: nat,
                       ghost s0: LayerState, ghost n: nat)
    returns (x': real, y': real, first': bool, missing: bool, ghost n': nat)
    requires layer.Valid() && FontValid(tp.font) && WellFormed(s0)
    requires layer.Snapshot() == Glyphs(s0, tp.font.texture, tp.font.sdf, layer.drawlist.CurrentClip(), n)
    modifies layer`commandBuffer, layer`hasLastCommand, layer`vertexCount, layer`indexBuffer
    modifies layer.drawlist`vertexBufferSize
    ensures layer.Valid()
    ensures Pen(Vec2(x', y'), first') == PenAfter(tp, Pen(Vec2(x, y), first), c)
    ensures missing == Missing(tp.font, c)
    ensures n' == n + if Emits(tp, Pen(Vec2(x, y), first), c) then 1 else 0
    ensures layer.Snapshot() == Glyphs(s0, tp.font.texture, tp.font.sdf, layer.drawlist.CurrentClip(), n')
  {
    var emit;
    x', y', first', missing, emit := PenStep(tp, x, y, first, c);
    n' := n;
    if emit {
      EmitGlyph(layer, tp.font.texture, tp.font.sdf, s0, n);
      n' := n + 1;
    }
  }

  /**
   * The loop shared by pl__add_text_ex and pl__add_text_clipped_ex. The layer
   * ends up with one quad per code point the gate lets through; glyphMissing
   * reports whether the source's "Glyph not found" assertion fires for some
   * code point (the walk goes on past it, as without assertions).
   */
  method TextWalk(layer: DrawLayer, tp: TextParams, text: seq<byte>, decode: seq<byte> -> Decoded)
    returns (glyphMissing: bool)
    requires layer.Valid() && FontValid(tp.font)
    modifies layer`commandBuffer, layer`hasLastCommand, layer`vertexCount, layer`indexBuffer
    modifies layer.drawlist`vertexBufferSize
    ensures layer.Valid()
    ensures layer.Snapshot() == Glyphs(old(layer.Snapshot()), tp.font.texture, tp.font.sdf, layer.drawlist.CurrentClip(),
                                       Quads(tp, Pen(tp.origin, true), CodePoints(text, 0, decode)))
    ensures glyphMissing == AnyMissing(tp.font, CodePoints(text, 0, decode))
  {
    ghost var s0 := layer.Snapshot();
    ghost var all := CodePoints(text, 0, decode);
    ghost var clip := layer.drawlist.CurrentClip();
    ghost var n := 0;
    var font := tp.font;
    var i := 0;
    var x, y, first := tp.origin.x, tp.origin.y, true;
    glyphMissing := false;
    while i < |text|
      invariant layer.Valid() && layer.drawlist.CurrentClip() == clip
      invariant layer.Snapshot() == Glyphs(s0, font.texture, font.sdf, clip, n)
      invariant n + Quads(tp, Pen(Vec2(x, y), first), CodePoints(text, i, decode)) == Quads(tp, Pen(tp.origin, true), all)
      invariant (glyphMissing || AnyMissing(font, CodePoints(text, i, decode))) == AnyMissing(font, all)
      decreases |text| - i
    {
      var c, next, stop := DecodeAt(text, i, decode);
      if stop {
        break;
      }
      WalkStep(tp, Pen(Vec2(x, y), first), c, CodePoints(text, next, decode));
      var missing;
      x, y, first, missing, n := WalkCodePoint(layer, tp, x, y, first, c, s0, n);
      glyphMissing := glyphMissing || missing;
      i := next;
    }
    assert CodePoints(text, i, decode) == [];
  }

  /** pl__add_text_ex: the walk over text[..], unclipped, scaled to `size`. */
  method AddTextEx(layer: DrawLayer, font: Font, size: real, p: Vec2, text: seq<byte>, wrap: real,
                   decode: seq<byte> -> Decoded)
    returns (glyphMissing: bool)
    requires layer.Valid() && FontValid(font)
    requires size > 0.0 ==> font.fontSize != 0.0
    modifies layer`commandBuffer, layer`hasLastCommand, layer`vertexCount, layer`indexBuffer
    modifies layer.drawlist`vertexBufferSize
    ensures layer.Valid()
    ensures layer.Snapshot() == Glyphs(old(layer.Snapshot()), font.texture, font.sdf, layer.drawlist.CurrentClip(),
                                       CountDrawable(font, CodePoints(text, 0, decode)))
    ensures glyphMissing == AnyMissing(font, CodePoints(text, 0, decode))
  {
    var tp := Params(font, size, p, wrap, None);
    UnclippedQuadsCountDrawable(tp, Pen(p, true), CodePoints(text, 0, decode));
    glyphMissing := TextWalk(layer, tp, text, decode);
  }

  /**
   * pl__add_text_clipped_ex: as the unclipped walk, but a glyph is only
   * emitted when the rectangle (tMin, tMax) contains the advanced pen.
   */
  method AddTextClippedEx(layer: DrawLayer, font: Font, size: real, p: Vec2, tMin: Vec2, tMax: Vec2,
                          text: seq<byte>, wrap: real, decode: seq<byte> -> Decoded)
    returns (glyphMissing: bool)
    requires layer.Valid() && FontValid(font)
    requires size > 0.0 ==> font.fontSize != 0.0
    modifies layer`commandBuffer, layer`hasLastCommand, layer`vertexCount, layer`indexBuffer
    modifies layer.drawlist`vertexBufferSize
    ensures layer.Valid()
    ensures layer.Snapshot() == Glyphs(old(layer.Snapshot()), font.texture, font.sdf, layer.drawlist.CurrentClip(),
                                       Quads(Params(font, size, p, wrap, Some(Rect(tMin, tMax))), Pen(p, true),
                                             CodePoints(text, 0, decode)))
    ensures glyphMissing == AnyMissing(font, CodePoints(text, 0, decode))
  {
    glyphMissing := TextWalk(layer, Params(font, size, p, wrap, Some(Rect(tMin, tMax))), text, decode);
  }

  /** strlen: the index of the first 0 byte. */
  function Strlen(text: seq<byte>): (r: nat)
    requires 0 in text
    ensures r < |text| && text[r] == 0 && forall k :: 0 <= k < r ==> text[k] != 0
  {
    if text[0] == 0 then 0
    else
      assert 0 in text[1..];
      1 + Strlen(text[1..])
  }

  /** pl__add_text: the bytes before the terminating 0 of a C string. */
  method AddText(layer: DrawLayer, font: Font, size: real, p: Vec2, text: seq<byte>, wrap: real,
                 decode: seq<byte> -> Decoded)
    returns (glyphMissing: bool)
    requires layer.Valid() && FontValid(font) && 0 in text
    requires size > 0.0 ==> font.fontSize != 0.0
    modifies layer`commandBuffer, layer`hasLastCommand, layer`vertexCount, layer`indexBuffer
    modifies layer.drawlist`vertexBufferSize
    ensures layer.Valid()
    ensures layer.Snapshot() == Glyphs(old(layer.Snapshot()), font.texture, font.sdf, layer.drawlist.CurrentClip(),
                                       CountDrawable(font, CodePoints(text[..Strlen(text)], 0, decode)))
    ensures glyphMissing == AnyMissing(font, CodePoints(text[..Strlen(text)], 0, decode))
  {
    glyphMissing := AddTextEx(layer, font, size, p, text[..Strlen(text)], wrap, decode);
  }

  /** pl__add_text_clipped: the clipped walk over a C string. */
  method AddTextClipped(layer: DrawLayer, font: Font, size: real, p: Vec2, tMin: Vec2, tMax: Vec2,
                        text: seq<byte>, wrap: real, decode: seq<byte> -> Decoded)
    returns (glyphMissing: bool)
    requires layer.Valid() && FontValid(font) && 0 in text
    requires size > 0.0 ==> font.fontSize != 0.0
    modifies layer`commandBuffer, layer`hasLastCommand, layer`vertexCount, layer`indexBuffer
    modifies layer.drawlist`vertexBufferSize
    ensures layer.Valid()
    ensures layer.Snapshot() == Glyphs(old(layer.Snapshot()), font.texture, font.sdf, layer.drawlist.CurrentClip(),
                                       Quads(Params(font, size, p, wrap, Some(Rect(tMin, tMax))), Pen(p, true),
                                             CodePoints(text[..Strlen(text)], 0, decode)))
    ensures glyphMissing == AnyMissing(font, CodePoints(text[..Strlen(text)], 0, decode))
  {
    glyphMissing := AddTextClippedEx(layer, font, size, p, tMin, tMax, text[..Strlen(text)], wrap, decode);
  }
}
