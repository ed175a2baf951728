// Value model of one draw layer and the drawlist-wide counters its primitives
// touch. The imperative classes in module Draw are proved to follow these
// functions step for step; the lemmas here state what the batching engine
// promises about them.
module DrawModel {
  import opened Geometry

  /** Opaque texture handle (plTextureId). */
  type TextureId = nat

  /** One batched draw call (plDrawCommand). */
  datatype DrawCommand = DrawCommand(
    vertexOffset: nat,   // size of the shared vertex buffer when the command was opened
    indexOffset: nat,    // size of the layer's index buffer when the command was opened
    elementCount: nat,   // indices reserved for this command so far
    textureId: TextureId,
    sdf: bool,
    clip: Rect)

  /**
   * A layer as the primitives see it: its command buffer, index buffer, vertex
   * count, whether `_lastCommand` is set, the length of its path scratch buffer,
   * and the size of the drawlist-wide vertex buffer its indices point into.
   * Vertex contents (positions, UVs, colours) are not part of the model.
   */
  datatype LayerState = LayerState(
    commands: seq<DrawCommand>,
    indices: seq<nat>,
    vertexCount: nat,
    hasLast: bool,
    pathLength: nat,
    vertexBufferSize: nat)

  /** `_lastCommand`, when set, points at an existing command. */
  predicate WellFormed(s: LayerState)
  {
    s.hasLast ==> |s.commands| > 0
  }

  function Last(s: LayerState): DrawCommand
    requires |s.commands| > 0
  {
    s.commands[|s.commands| - 1]
  }

  /** The batching rule of pl__prepare_draw_command. */
  predicate NeedsNewCommand(s: LayerState, texture: TextureId, sdf: bool, clip: Rect)
    requires WellFormed(s)
  {
    !s.hasLast || Last(s).textureId != texture || Last(s).sdf != sdf || Last(s).clip != clip
  }

  /** State after pl__prepare_draw_command (see PreparedFacts for what it guarantees). */
  function Prepared(s: LayerState, texture: TextureId, sdf: bool, clip: Rect): (r: LayerState)
    requires WellFormed(s)
    ensures WellFormed(r) && r.hasLast
  {
    if NeedsNewCommand(s, texture, sdf, clip) then
      s.(commands := s.commands + [DrawCommand(s.vertexBufferSize, |s.indices|, 0, texture, sdf, clip)],
         hasLast := true)
    else
      s
  }

  /**
   * A new command is pushed exactly when the batching rule asks for one; it
   * starts where the vertex and index buffers currently end and covers no
   * index yet. Afterwards the last command always carries the requested
   * texture, SDF flag and clip rectangle, and nothing else changes.
   */
  lemma PreparedFacts(s: LayerState, texture: TextureId, sdf: bool, clip: Rect)
    requires WellFormed(s)
    ensures var r := Prepared(s, texture, sdf, clip);
      Last(r).textureId == texture && Last(r).sdf == sdf && Last(r).clip == clip &&
      (|r.commands| == |s.commands| + 1 <==> NeedsNewCommand(s, texture, sdf, clip)) &&
      (!NeedsNewCommand(s, texture, sdf, clip) ==> r.commands == s.commands) &&
      (NeedsNewCommand(s, texture, sdf, clip) ==>
         r.commands[..|s.commands|] == s.commands &&
         Last(r) == DrawCommand(s.vertexBufferSize, |s.indices|, 0, texture, sdf, clip)) &&
      r.indices == s.indices && r.vertexCount == s.vertexCount &&
      r.pathLength == s.pathLength && r.vertexBufferSize == s.vertexBufferSize
  {
  }

  /** State after pl__reserve_triangles: only the last element count and the vertex count move. */
  function Reserved(s: LayerState, indexCount: nat, vertexCount: nat): LayerState
    requires |s.commands| > 0
  {
    var k := |s.commands| - 1;
    s.(commands := s.commands[k := s.commands[k].(elementCount := s.commands[k].elementCount + indexCount)],
       vertexCount := s.vertexCount + vertexCount)
  }

  /** Vertices and indices appended after reservation. */
  function Appended(s: LayerState, newVertices: nat, newIndices: seq<nat>): LayerState
  {
    s.(vertexBufferSize := s.vertexBufferSize + newVertices, indices := s.indices + newIndices)
  }

  /** The common shape of every filled primitive: prepare, reserve, append. */
  function Emit(s: LayerState, texture: TextureId, sdf: bool, clip: Rect,
                reserveIndices: nat, newVertices: nat, newIndices: seq<nat>): LayerState
    requires WellFormed(s)
  {
    Appended(Reserved(Prepared(s, texture, sdf, clip), reserveIndices, newVertices), newVertices, newIndices)
  }

  // ---------------------------------------------------------------------------
  // Index patterns, as absolute values starting at the captured vertexStart.
  // ---------------------------------------------------------------------------

  /** Two triangles (0,1,2) and (0,2,3): rects, quads, images and line segments. */
  function QuadIndices(vs: nat): seq<nat>
  {
    [vs, vs + 1, vs + 2, vs, vs + 2, vs + 3]
  }

  /** Two triangles (1,0,2) and (2,0,3): one text glyph. */
  function GlyphIndices(vs: nat): seq<nat>
  {
    [vs + 1, vs, vs + 2, vs + 2, vs, vs + 3]
  }

  function TriangleIndices(vs: nat): seq<nat>
  {
    [vs, vs + 1, vs + 2]
  }

  /** `count` line segments, each a quad over its own four vertices. */
  function SegmentIndices(vs: nat, count: nat): (r: seq<nat>)
    ensures |r| == 6 * count
  {
    if count == 0 then [] else SegmentIndices(vs, count - 1) + QuadIndices(vs + 4 * (count - 1))
  }

  /** Segment i only names its own vertices vs + 4i .. vs + 4i + 3. */
  lemma {:induction false} SegmentIndicesInRange(vs: nat, count: nat)
    ensures forall k :: 0 <= k < |SegmentIndices(vs, count)| ==>
              vs <= SegmentIndices(vs, count)[k] < vs + 4 * count
  {
    if count > 0 {
      SegmentIndicesInRange(vs, count - 1);
      var r := SegmentIndices(vs, count);
      forall k | 0 <= k < |r|
        ensures vs <= r[k] < vs + 4 * count
      {
        if k < 6 * (count - 1) {
          assert r[k] == SegmentIndices(vs, count - 1)[k];
        } else {
          assert r[k] == QuadIndices(vs + 4 * (count - 1))[k - 6 * (count - 1)];
        }
      }
    }
  }

  /** The first `k` fan triangles (i+1, 0, i+2) around the centre vertex vs. */
  function FanPrefix(vs: nat, k: nat): (r: seq<nat>)
    ensures |r| == 3 * k
  {
    if k == 0 then [] else FanPrefix(vs, k - 1) + [vs + k, vs, vs + k + 1]
  }

  /** The first k fan triangles only name the centre and rim vertices 1 .. k + 1. */
  lemma {:induction false} FanPrefixInRange(vs: nat, k: nat)
    ensures forall j :: 0 <= j < |FanPrefix(vs, k)| ==> vs <= FanPrefix(vs, k)[j] <= vs + k + 1
  {
    if k > 0 {
      FanPrefixInRange(vs, k - 1);
      var r := FanPrefix(vs, k);
      forall j | 0 <= j < |r|
        ensures vs <= r[j] <= vs + k + 1
      {
        if j < 3 * (k - 1) {
          assert r[j] == FanPrefix(vs, k - 1)[j];
        }
      }
    }
  }

  /** A closed fan of n triangles over the centre and n rim vertices. */
  function Fan(vs: nat, n: nat): (r: seq<nat>)
    requires n >= 1
    ensures |r| == 3 * n
  {
    FanPrefix(vs, n - 1) + [vs + n, vs, vs + 1]
  }

  /** A fan of n triangles only names its n + 1 vertices. */
  lemma FanInRange(vs: nat, n: nat)
    requires n >= 1
    ensures forall j :: 0 <= j < |Fan(vs, n)| ==> vs <= Fan(vs, n)[j] < vs + n + 1
  {
    FanPrefixInRange(vs, n - 1);
    var r := Fan(vs, n);
    forall j | 0 <= j < |r|
      ensures vs <= r[j] < vs + n + 1
    {
      if j < 3 * (n - 1) {
        assert r[j] == FanPrefix(vs, n - 1)[j];
      }
    }
  }

  // ---------------------------------------------------------------------------
  // The primitives of the 2D layer.
  // ---------------------------------------------------------------------------

  datatype Primitive =
    | Line
    | Lines(count: nat)
    | Triangle
    | TriangleFilled
    | RectOutline
    | RectFilled
    | RectRounded(segments: nat)
    | RectRoundedFilled(segments: nat)
    | Quad
    | QuadFilled
    | Circle(segments: nat)
    | CircleFilled(segments: nat)
    | Image(texture: TextureId)
    | Bezier(segments: nat)  // quadratic and cubic curves push the same number of points

  /** A segment count of 0 asks for the primitive's default. */
  function Segments(requested: nat, default: nat): (r: nat)
    requires default > 0
    ensures r > 0 && (requested > 0 ==> r == requested)
  {
    if requested == 0 then default else requested
  }

  /** Primitives that push points into the path buffer and then submit it. */
  predicate IsPath(p: Primitive)
  {
    p.Line? || p.Triangle? || p.RectOutline? || p.RectRounded? || p.Quad? ||
    p.Circle? || p.Bezier?
  }

  /** Points pushed into the path buffer by a path primitive. */
  function PathPoints(p: Primitive): nat
    requires IsPath(p)
  {
    match p
    case Line => 2
    case Triangle => 4
    case RectOutline => 5
    case Quad => 5
    case Circle(s) => Segments(s, 12) + 1
    case Bezier(s) => Segments(s, 12) + 1
    case RectRounded(s) => 4 * Segments(s, 3) + 5
  }

  /** Vertices appended by a filled primitive (excluding Lines). */
  function FillVertices(p: Primitive): nat
    requires !IsPath(p) && !p.Lines?
  {
    match p
    case TriangleFilled => 3
    case RectFilled => 4
    case QuadFilled => 4
    case Image(_) => 4
    case CircleFilled(s) => Segments(s, 12) + 1
    case RectRoundedFilled(s) => 4 * Segments(s, 3) + 5
  }

  /** Indices passed to pl__reserve_triangles by a filled primitive, as written. */
  function FillReserve(p: Primitive): nat
    requires !IsPath(p) && !p.Lines?
  {
    match p
    case TriangleFilled => 3
    case RectFilled => 6
    case QuadFilled => 6
    case Image(_) => 6
    case CircleFilled(s) => 3 * Segments(s, 12)
    case RectRoundedFilled(s) => 4 * Segments(s, 3) + 4
  }

  /** Indices appended by a filled primitive whose vertices start at vs. */
  function FillIndices(p: Primitive, vs: nat): seq<nat>
    requires !IsPath(p) && !p.Lines?
  {
    match p
    case TriangleFilled => TriangleIndices(vs)
    case RectFilled => QuadIndices(vs)
    case QuadFilled => QuadIndices(vs)
    case Image(_) => QuadIndices(vs)
    case CircleFilled(s) => Fan(vs, Segments(s, 12))
    case RectRoundedFilled(s) => Fan(vs, 4 * Segments(s, 3) + 4)
  }

  /** The layer a primitive starts emitting from: path primitives first push their points. */
  function PreState(s: LayerState, p: Primitive): LayerState
  {
    if IsPath(p) then s.(pathLength := s.pathLength + PathPoints(p)) else s
  }

  /** Texture a primitive draws with: the image's own, otherwise the font atlas. */
  function StepTexture(p: Primitive, atlas: TextureId): TextureId
  {
    if p.Image? then p.texture else atlas
  }

  /**
   * Line segments drawn by pl__add_lines for this primitive: the requested
   * count, or one per consecutive pair of points in the flushed path.
   */
  function StepSegments(s: LayerState, p: Primitive): nat
    requires p.Lines? || IsPath(p)
  {
    if p.Lines? then p.count else s.pathLength + PathPoints(p) - 1
  }

  /** Indices the primitive passes to pl__reserve_triangles. */
  function StepReserve(s: LayerState, p: Primitive): nat
  {
    if p.Lines? || IsPath(p) then 6 * StepSegments(s, p) else FillReserve(p)
  }

  /** Vertices the primitive appends (four per line segment). */
  function StepVertices(s: LayerState, p: Primitive): nat
  {
    if p.Lines? || IsPath(p) then 4 * StepSegments(s, p) else FillVertices(p)
  }

  /**
   * Indices the primitive appends. Every one of them names a vertex the same
   * primitive appends, and there are as many as it reserves, except for the
   * filled rounded rectangle, which appends three times as many.
   */
  function StepIndices(s: LayerState, p: Primitive): (r: seq<nat>)
    ensures p.RectRoundedFilled? ==> |r| == 3 * StepReserve(s, p)
    ensures !p.RectRoundedFilled? ==> |r| == StepReserve(s, p)
  {
    if p.Lines? || IsPath(p) then SegmentIndices(s.vertexBufferSize, StepSegments(s, p))
    else FillIndices(p, s.vertexBufferSize)
  }

  /** Every index a primitive appends names a vertex the same primitive appends. */
  lemma StepIndicesInRange(s: LayerState, p: Primitive)
    ensures forall k :: 0 <= k < |StepIndices(s, p)| ==>
              s.vertexBufferSize <= StepIndices(s, p)[k] < s.vertexBufferSize + StepVertices(s, p)
  {
    var vs := s.vertexBufferSize;
    if p.Lines? || IsPath(p) {
      SegmentIndicesInRange(vs, StepSegments(s, p));
    } else if p.CircleFilled? {
      FanInRange(vs, Segments(p.segments, 12));
    } else if p.RectRoundedFilled? {
      FanInRange(vs, 4 * Segments(p.segments, 3) + 4);
    }
  }

  /**
   * The effect of one primitive on a layer. `atlas` is the font atlas texture
   * that solid-colour primitives draw with; `clip` is the drawlist's current
   * clip rectangle (ZeroRect when its clip stack is empty). Path primitives
   * push their points and then flush the whole path (pl__submit_path):
   * one segment per consecutive pair, and the path is emptied.
   */
  function Apply(s: LayerState, p: Primitive, atlas: TextureId, clip: Rect): (r: LayerState)
    requires WellFormed(s)
    ensures WellFormed(r)
  {
    var e := Emit(PreState(s, p), StepTexture(p, atlas), false, clip,
                  StepReserve(s, p), StepVertices(s, p), StepIndices(s, p));
    if IsPath(p) then e.(pathLength := 0) else e
  }

  /** A filled primitive is one prepare-reserve-append step with its own counts. */
  lemma FillIsEmit(s: LayerState, p: Primitive, atlas: TextureId, clip: Rect)
    requires WellFormed(s) && !IsPath(p) && !p.Lines?
    ensures Apply(s, p, atlas, clip) ==
            Appended(Reserved(Prepared(s, StepTexture(p, atlas), false, clip), FillReserve(p), FillVertices(p)),
                     FillVertices(p), FillIndices(p, s.vertexBufferSize))
  {
  }

  // ---------------------------------------------------------------------------
  // Invariants.
  // ---------------------------------------------------------------------------

  /**
   * The commands partition the index buffer in order: each command's element
   * count is exactly the number of indices between its offset and the next
   * command's offset (or the end of the buffer).
   */
  predicate Tiled(s: LayerState)
  {
    if |s.commands| == 0 then |s.indices| == 0
    else
      s.commands[0].indexOffset == 0 &&
      (forall k :: 0 <= k < |s.commands| - 1 ==>
         s.commands[k].indexOffset + s.commands[k].elementCount == s.commands[k + 1].indexOffset) &&
      Last(s).indexOffset + Last(s).elementCount == |s.indices|
  }

  /** Every index refers to a vertex that exists in the shared vertex buffer. */
  predicate IndicesValid(s: LayerState)
  {
    forall k :: 0 <= k < |s.indices| ==> s.indices[k] < s.vertexBufferSize
  }

  /** What pl__submit_path does to a layer whose path holds at least one point. */
  function LinesAndClear(s: LayerState, atlas: TextureId, clip: Rect): LayerState
    requires WellFormed(s) && s.pathLength >= 1
  {
    Apply(s, Lines(s.pathLength - 1), atlas, clip).(pathLength := 0)
  }

  /** A path primitive is its points pushed, then the path submitted. */
  lemma PathPrimitiveIsSubmit(s: LayerState, p: Primitive, atlas: TextureId, clip: Rect)
    requires WellFormed(s) && IsPath(p)
    ensures Apply(s, p, atlas, clip) == LinesAndClear(PreState(s, p), atlas, clip)
  {
    var pre := PreState(s, p);
    var q := Lines(pre.pathLength - 1);
    assert PreState(pre, q) == pre && pre.vertexBufferSize == s.vertexBufferSize;
    assert StepSegments(s, p) == StepSegments(pre, q);
    assert StepTexture(p, atlas) == StepTexture(q, atlas);
    assert StepReserve(s, p) == StepReserve(pre, q);
    assert StepVertices(s, p) == StepVertices(pre, q);
    assert StepIndices(s, p) == StepIndices(pre, q);
  }

  /** A layer as request/return/new-frame leave it. */
  function EmptyLayer(vertexBufferSize: nat): LayerState
  {
    LayerState([], [], 0, false, 0, vertexBufferSize)
  }

  /**
   * After any primitive the layer has a last command, drawn with the
   * primitive's texture under the current clip; at most one command is
   * opened; the shared vertex buffer and the layer's vertex count grow by the
   * vertices appended; path primitives leave the path empty.
   */
  lemma ApplyFacts(s: LayerState, p: Primitive, atlas: TextureId, clip: Rect)
    requires WellFormed(s)
    ensures var r := Apply(s, p, atlas, clip);
      r.hasLast && Last(r).textureId == StepTexture(p, atlas) && Last(r).clip == clip && !Last(r).sdf &&
      r.pathLength == (if IsPath(p) then 0 else s.pathLength) &&
      |s.commands| <= |r.commands| <= |s.commands| + 1 &&
      r.vertexBufferSize == s.vertexBufferSize + StepVertices(s, p) &&
      r.vertexCount == s.vertexCount + StepVertices(s, p) &&
      r.indices == s.indices + StepIndices(s, p)
  {
  }

  /** Primitives applied one after another. */
  function ApplyAll(s: LayerState, ps: seq<Primitive>, atlas: TextureId, clip: Rect): (r: LayerState)
    requires WellFormed(s)
    ensures WellFormed(r)
  {
    if |ps| == 0 then s else Apply(ApplyAll(s, ps[..|ps| - 1], atlas, clip), ps[|ps| - 1], atlas, clip)
  }

  /** Indices a primitive reserves when drawn with an empty path buffer. */
  function ReserveOf(p: Primitive): nat
  {
    StepReserve(EmptyLayer(0), p)
  }

  function TotalReserve(ps: seq<Primitive>): nat
  {
    if |ps| == 0 then 0 else TotalReserve(ps[..|ps| - 1]) + ReserveOf(ps[|ps| - 1])
  }

  // ---------------------------------------------------------------------------
  // Lemmas.
  // ---------------------------------------------------------------------------

  /** Opening (or reusing) a command keeps the commands tiling the index buffer. */
  lemma PreparedKeepsTiling(s: LayerState, texture: TextureId, sdf: bool, clip: Rect)
    requires WellFormed(s) && Tiled(s)
    ensures Tiled(Prepared(s, texture, sdf, clip))
  {
    var r := Prepared(s, texture, sdf, clip);
    if NeedsNewCommand(s, texture, sdf, clip) && |s.commands| > 0 {
      forall k | 0 <= k < |r.commands| - 1
        ensures r.commands[k].indexOffset + r.commands[k].elementCount == r.commands[k + 1].indexOffset
      {
        if k < |s.commands| - 1 {
          assert r.commands[k] == s.commands[k] && r.commands[k + 1] == s.commands[k + 1];
        } else {
          assert r.commands[k] == Last(s);
        }
      }
    }
  }

  /**
   * A prepare/reserve/append sequence that appends exactly as many indices
   * as it reserves keeps the commands tiling the index buffer.
   */
  lemma EmitKeepsTiling(s: LayerState, texture: TextureId, sdf: bool, clip: Rect,
                        reserveIndices: nat, newVertices: nat, newIndices: seq<nat>)
    requires WellFormed(s) && Tiled(s) && |newIndices| == reserveIndices
    ensures Tiled(Emit(s, texture, sdf, clip, reserveIndices, newVertices, newIndices))
  {
    PreparedKeepsTiling(s, texture, sdf, clip);
    var p := Prepared(s, texture, sdf, clip);
    var q := Reserved(p, reserveIndices, newVertices);
    var r := Appended(q, newVertices, newIndices);
    forall k | 0 <= k < |r.commands| - 1
      ensures r.commands[k].indexOffset + r.commands[k].elementCount == r.commands[k + 1].indexOffset
    {
      assert r.commands[k] == p.commands[k];
      assert r.commands[k + 1].indexOffset == p.commands[k + 1].indexOffset;
    }
  }

  /** Tiling is about commands and indices only: the path length does not enter it. */
  lemma TiledIgnoresPath(s: LayerState, n: nat)
    requires Tiled(s)
    ensures Tiled(s.(pathLength := n))
  {
    var z := s.(pathLength := n);
    assert z.commands == s.commands && z.indices == s.indices;
  }

  /**
   * Every 2D primitive except the filled rounded rectangle keeps the element
   * counts of the commands equal to the index ranges they cover.
   */
  lemma ApplyKeepsTiling(s: LayerState, p: Primitive, atlas: TextureId, clip: Rect)
    requires WellFormed(s) && Tiled(s) && !p.RectRoundedFilled?
    ensures Tiled(Apply(s, p, atlas, clip))
  {
    var pre := PreState(s, p);
    TiledIgnoresPath(s, pre.pathLength);
    assert pre == s.(pathLength := pre.pathLength);
    var e := Emit(pre, StepTexture(p, atlas), false, clip, StepReserve(s, p), StepVertices(s, p), StepIndices(s, p));
    EmitKeepsTiling(pre, StepTexture(p, atlas), false, clip, StepReserve(s, p), StepVertices(s, p), StepIndices(s, p));
    TiledIgnoresPath(e, 0);
  }

  /**
   * The filled rounded rectangle as written reserves 4s+4 indices but appends
   * 3(4s+4): afterwards the last command no longer covers the index buffer.
   */
  lemma RoundedFillBreaksTiling(s: LayerState, segments: nat, atlas: TextureId, clip: Rect)
    requires WellFormed(s) && Tiled(s)
    ensures !Tiled(Apply(s, RectRoundedFilled(segments), atlas, clip))
    ensures var r := Apply(s, RectRoundedFilled(segments), atlas, clip);
            Last(r).indexOffset + Last(r).elementCount + 2 * (4 * Segments(segments, 3) + 4) == |r.indices|
  {
    var n := 4 * Segments(segments, 3) + 4;
    var pr := Prepared(s, atlas, false, clip);
    assert Last(pr).indexOffset + Last(pr).elementCount == |s.indices| by {
      if !NeedsNewCommand(s, atlas, false, clip) {
        assert pr == s;
      }
    }
  }

  /** The filled rounded rectangle with the reservation it evidently intends. */
  function RoundedFillCorrected(s: LayerState, segments: nat, atlas: TextureId, clip: Rect): LayerState
    requires WellFormed(s)
  {
    var n := 4 * Segments(segments, 3) + 4;
    Emit(s, atlas, false, clip, 3 * n, n + 1, Fan(s.vertexBufferSize, n))
  }

  /** Reserving one index per appended index restores the tiling. */
  lemma RoundedFillCorrectedKeepsTiling(s: LayerState, segments: nat, atlas: TextureId, clip: Rect)
    requires WellFormed(s) && Tiled(s)
    ensures Tiled(RoundedFillCorrected(s, segments, atlas, clip))
  {
    var n := 4 * Segments(segments, 3) + 4;
    EmitKeepsTiling(s, atlas, false, clip, 3 * n, n + 1, Fan(s.vertexBufferSize, n));
  }

  /** The corrected filled rounded rectangle only names the vertices it appends. */
  lemma RoundedFillCorrectedKeepsIndicesValid(s: LayerState, segments: nat, atlas: TextureId, clip: Rect)
    requires WellFormed(s) && IndicesValid(s)
    ensures IndicesValid(RoundedFillCorrected(s, segments, atlas, clip))
  {
    var n := 4 * Segments(segments, 3) + 4;
    FanInRange(s.vertexBufferSize, n);
    EmitKeepsIndicesValid(s, atlas, false, clip, 3 * n, n + 1, Fan(s.vertexBufferSize, n));
  }

  /** Appending indices that point into the vertices just appended keeps every index valid. */
  lemma EmitKeepsIndicesValid(s: LayerState, texture: TextureId, sdf: bool, clip: Rect,
                              reserveIndices: nat, newVertices: nat, newIndices: seq<nat>)
    requires WellFormed(s) && IndicesValid(s)
    requires forall k :: 0 <= k < |newIndices| ==>
               s.vertexBufferSize <= newIndices[k] < s.vertexBufferSize + newVertices
    ensures IndicesValid(Emit(s, texture, sdf, clip, reserveIndices, newVertices, newIndices))
  {
    var r := Emit(s, texture, sdf, clip, reserveIndices, newVertices, newIndices);
    forall k | 0 <= k < |r.indices|
      ensures r.indices[k] < r.vertexBufferSize
    {
      if k < |s.indices| {
        assert r.indices[k] == s.indices[k];
      } else {
        assert r.indices[k] == newIndices[k - |s.indices|];
      }
    }
  }

  /** Every 2D primitive, the rounded fill included, only emits indices of vertices it appended. */
  lemma ApplyKeepsIndicesValid(s: LayerState, p: Primitive, atlas: TextureId, clip: Rect)
    requires WellFormed(s) && IndicesValid(s)
    ensures IndicesValid(Apply(s, p, atlas, clip))
  {
    StepIndicesInRange(s, p);
    EmitKeepsIndicesValid(PreState(s, p), StepTexture(p, atlas), false, clip,
                          StepReserve(s, p), StepVertices(s, p), StepIndices(s, p));
  }

  /** Tiling survives any sequence of primitives without a filled rounded rectangle. */
  lemma {:induction false} ApplyAllKeepsTiling(s: LayerState, ps: seq<Primitive>, atlas: TextureId, clip: Rect)
    requires WellFormed(s) && Tiled(s)
    requires forall i :: 0 <= i < |ps| ==> !ps[i].RectRoundedFilled?
    ensures Tiled(ApplyAll(s, ps, atlas, clip))
  {
    if |ps| > 0 {
      ApplyAllKeepsTiling(s, ps[..|ps| - 1], atlas, clip);
      ApplyKeepsTiling(ApplyAll(s, ps[..|ps| - 1], atlas, clip), ps[|ps| - 1], atlas, clip);
    }
  }

  /** A primitive whose draw state matches the last command only grows that command. */
  lemma ApplyExtendsMatchingCommand(s: LayerState, p: Primitive, atlas: TextureId, clip: Rect)
    requires WellFormed(s) && s.hasLast
    requires Last(s).textureId == StepTexture(p, atlas) && !Last(s).sdf && Last(s).clip == clip
    ensures var r := Apply(s, p, atlas, clip);
            r.commands == s.commands[|s.commands| - 1 := Last(s).(elementCount := Last(s).elementCount + StepReserve(s, p))]
  {
    assert Prepared(PreState(s, p), StepTexture(p, atlas), false, clip).commands == s.commands;
  }

  /** The first primitive of an empty layer opens its first command. */
  lemma ApplyOpensFirstCommand(s: LayerState, p: Primitive, atlas: TextureId, clip: Rect)
    requires WellFormed(s) && |s.commands| == 0
    ensures Apply(s, p, atlas, clip).commands ==
            [DrawCommand(s.vertexBufferSize, |s.indices|, StepReserve(s, p), StepTexture(p, atlas), false, clip)]
  {
  }

  /**
   * Batching: any non-empty run of solid-colour primitives (and images of the
   * atlas texture) drawn into an empty layer under one clip rectangle ends up
   * in a single draw command that starts at the front of both buffers and
   * carries every reserved index.
   */
  lemma {:induction false} SameStateBatchesIntoOneCommand(vb: nat, ps: seq<Primitive>, atlas: TextureId, clip: Rect)
    requires |ps| > 0
    requires forall i :: 0 <= i < |ps| ==> (ps[i].Image? ==> ps[i].texture == atlas)
    ensures var r := ApplyAll(EmptyLayer(vb), ps, atlas, clip);
            r.commands == [DrawCommand(vb, 0, TotalReserve(ps), atlas, false, clip)] && r.pathLength == 0
  {
    var init := ps[..|ps| - 1];
    var p := ps[|ps| - 1];
    var prev := ApplyAll(EmptyLayer(vb), init, atlas, clip);
    if |init| > 0 {
      SameStateBatchesIntoOneCommand(vb, init, atlas, clip);
      ApplyFacts(ApplyAll(EmptyLayer(vb), init[..|init| - 1], atlas, clip), init[|init| - 1], atlas, clip);
      assert StepReserve(prev, p) == ReserveOf(p);
      ApplyExtendsMatchingCommand(prev, p, atlas, clip);
    } else {
      assert StepReserve(prev, p) == ReserveOf(p);
      ApplyOpensFirstCommand(prev, p, atlas, clip);
    }
    ApplyFacts(prev, p, atlas, clip);
  }

  /**
   * Without a filled rounded rectangle, the single batched command covers
   * exactly the whole index buffer.
   */
  lemma BatchCoversIndexBuffer(vb: nat, ps: seq<Primitive>, atlas: TextureId, clip: Rect)
    requires |ps| > 0
    requires forall i :: 0 <= i < |ps| ==> (ps[i].Image? ==> ps[i].texture == atlas) && !ps[i].RectRoundedFilled?
    ensures TotalReserve(ps) == |ApplyAll(EmptyLayer(vb), ps, atlas, clip).indices|
  {
    SameStateBatchesIntoOneCommand(vb, ps, atlas, clip);
    ApplyAllKeepsTiling(EmptyLayer(vb), ps, atlas, clip);
  }
}
