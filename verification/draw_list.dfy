// The draw context, its 2D drawlists and their layers, as objects updated in
// place. Each primitive of a layer is proved to have exactly the effect that
// DrawModel.Apply describes, so the tiling and index-validity lemmas proved
// there carry over to the buffers built here.
module Draw {
  import opened Common
  import opened Geometry
  import opened DrawModel
  import opened Draw3D

  /**
   * What strncpy leaves in a name field of `capacity` bytes: the name itself
   * when it fits, otherwise its first `capacity` characters.
   */
  function StoredName(name: string, capacity: nat): (r: string)
    ensures |r| <= capacity && r <= name
    ensures |name| <= capacity ==> r == name
    ensures |name| > capacity ==> |r| == capacity
  {
    if |name| <= capacity then name else name[..capacity]
  }

  /** The context every drawlist registers with (plDrawContext). */
  class DrawContext {
    var drawlists: seq<DrawList>
    var drawlists3D: seq<DrawList3D>
    var frameCount: nat
    /** Texture of the font atlas: solid-colour primitives draw with it. */
    var fontAtlasTexture: TextureId

    constructor(fontAtlasTexture: TextureId)
      ensures drawlists == [] && drawlists3D == [] && frameCount == 0
      ensures this.fontAtlasTexture == fontAtlasTexture
    {
      drawlists := [];
      drawlists3D := [];
      frameCount := 0;
      this.fontAtlasTexture := fontAtlasTexture;
    }

    /**
     * Every registered drawlist belongs to this context, keeps its invariant
     * and is registered once.
     */
    predicate Valid()
      reads this, drawlists
    {
      (forall d :: d in drawlists ==> d.ctx == this && d.Valid()) &&
      (forall i, j :: 0 <= i < j < |drawlists| ==> drawlists[i] != drawlists[j])
    }

    /** Layers submitted to any registered drawlist this frame. */
    function SubmittedLayers(): set<DrawLayer>
      reads this, drawlists
    {
      set d, l | d in drawlists && l in d.submittedLayers :: l
    }

    /** pl__register_drawlist: a zeroed drawlist bound to this context is appended. */
    method RegisterDrawlist() returns (d: DrawList)
      requires Valid()
      modifies this`drawlists
      ensures Valid()
      ensures fresh(d) && d.ctx == this && drawlists == old(drawlists) + [d]
      ensures d.vertexBufferSize == 0 && d.layersCreated == [] && d.layerCache == []
      ensures d.submittedLayers == [] && d.clipStack == [] && d.indexBufferByteSize == 0
    {
      d := new DrawList(this);
      drawlists := drawlists + [d];
    }

    /** pl__register_3d_drawlist: a zeroed 3D drawlist is appended. */
    method Register3DDrawlist() returns (d: DrawList3D)
      modifies this`drawlists3D
      ensures fresh(d) && d.Valid() && drawlists3D == old(drawlists3D) + [d]
      ensures d.vertexBufferSize == 0 && d.indexBuffer == []
      ensures d.lineVertexBufferSize == 0 && d.lineIndexBuffer == []
    {
      d := new DrawList3D();
      drawlists3D := drawlists3D + [d];
    }

    /**
     * pl__new_draw_frame: every drawlist drops its vertices, draw commands
     * and submission list, every layer submitted last frame is emptied
     * (it is not handed back to the cache), every 3D drawlist is emptied and
     * the frame counter advances. Clip stacks, caches and names survive.
     */
    method NewFrame()
      requires Valid()
      modifies this`frameCount, drawlists, drawlists3D, SubmittedLayers()
      ensures Valid() && frameCount == old(frameCount) + 1
      ensures forall d :: d in drawlists ==> d.FrameReset() && d.KeptPool()
      ensures forall d, l :: d in drawlists && l in old(d.submittedLayers) ==> l.Emptied() && l.name == old(l.name)
      ensures forall d :: d in drawlists3D ==> d.Cleared()
    {
      ResetDrawlists();
      Reset3DDrawlists();
      frameCount := frameCount + 1;
    }

    /** The 2D half of pl__new_draw_frame. */
    method ResetDrawlists()
      requires Valid()
      modifies drawlists, SubmittedLayers()
      ensures Valid()
      ensures forall d :: d in drawlists ==> d.FrameReset() && d.KeptPool()
      ensures forall d, l :: d in drawlists && l in old(d.submittedLayers) ==> l.Emptied() && l.name == old(l.name)
    {
      var i := 0;
      while i < |drawlists|
        invariant 0 <= i <= |drawlists| && Valid()
        invariant forall j :: 0 <= j < i ==> drawlists[j].FrameReset() && drawlists[j].KeptPool()
        invariant forall j :: i <= j < |drawlists| ==>
                    drawlists[j].submittedLayers == old(drawlists[j].submittedLayers) && drawlists[j].KeptPool()
        invariant forall j, l :: 0 <= j < i && l in old(drawlists[j].submittedLayers) ==> l.Emptied()
        invariant forall l :: l in old(SubmittedLayers()) ==> l.name == old(l.name)
      {
        assert forall j :: 0 <= j < |drawlists| && j != i ==> drawlists[j] != drawlists[i];
        assert forall l :: l in drawlists[i].submittedLayers ==> l in old(SubmittedLayers());
        ResetAt(i);
        i := i + 1;
      }
    }

    /** One iteration of the 2D reset: drawlist i and the layers it submitted. */
    method ResetAt(i: nat)
      requires Valid() && i < |drawlists|
      modifies drawlists[i], drawlists[i].submittedLayers
      ensures Valid()
      ensures drawlists[i].FrameReset() && drawlists[i].KeptPool()
      ensures forall l :: l in old(drawlists[i].submittedLayers) ==> l.Emptied() && l.name == old(l.name)
    {
      drawlists[i].ResetFrame();
    }

    /** The 3D half of pl__new_draw_frame. */
    method Reset3DDrawlists()
      modifies drawlists3D
      ensures forall d :: d in drawlists3D ==> d.Cleared()
    {
      var k := 0;
      while k < |drawlists3D|
        invariant 0 <= k <= |drawlists3D|
        invariant forall j :: 0 <= j < k ==> drawlists3D[j].Cleared()
      {
        drawlists3D[k].Reset();
        k := k + 1;
      }
    }
  }

  /** A 2D drawlist (plDrawList): shared vertex buffer, layer pool and clip stack. */
  class DrawList {
    const ctx: DrawContext
    var vertexBufferSize: nat
    /** Draw commands gathered by the backend at submission time. */
    var drawCommands: seq<DrawCommand>
    var layersCreated: seq<DrawLayer>
    var layersCreatedCount: nat
    var layerCache: seq<DrawLayer>
    var submittedLayers: seq<DrawLayer>
    var clipStack: seq<Rect>
    var indexBufferByteSize: nat

    constructor(ctx: DrawContext)
      ensures this.ctx == ctx && Valid()
      ensures vertexBufferSize == 0 && drawCommands == [] && layersCreated == []
      ensures layersCreatedCount == 0 && layerCache == [] && submittedLayers == []
      ensures clipStack == [] && indexBufferByteSize == 0
    {
      this.ctx := ctx;
      vertexBufferSize := 0;
      drawCommands := [];
      layersCreated := [];
      layersCreatedCount := 0;
      layerCache := [];
      submittedLayers := [];
      clipStack := [];
      indexBufferByteSize := 0;
    }

    /**
     * The pool's bookkeeping: the counter matches the creation list, every
     * created layer points back at this drawlist, and cached and submitted
     * layers are layers this drawlist created.
     */
    predicate Valid()
      reads this
    {
      layersCreatedCount == |layersCreated| &&
      (forall l :: l in layersCreated ==> l.drawlist == this) &&
      (forall l :: l in layerCache ==> l in layersCreated) &&
      (forall l :: l in submittedLayers ==> l in layersCreated)
    }

    /** State of a drawlist right after the per-frame reset. */
    predicate FrameReset()
      reads this
    {
      vertexBufferSize == 0 && drawCommands == [] &&
      submittedLayers == [] && indexBufferByteSize == 0
    }

    /** The clip stack and the layer pool are as they were in the earlier state. */
    twostate predicate KeptPool()
      reads this
    {
      clipStack == old(clipStack) && layerCache == old(layerCache) && layersCreated == old(layersCreated)
    }

    /** The clip rectangle new commands record: the top of the stack, or all zeroes. */
    function CurrentClip(): (r: Rect)
      reads this`clipStack
      ensures |clipStack| > 0 ==> r == clipStack[|clipStack| - 1]
      ensures |clipStack| == 0 ==> r == ZeroRect
    {
      if |clipStack| > 0 then clipStack[|clipStack| - 1] else ZeroRect
    }

    /** pl__get_clip_rect: the top of the stack, or nothing when it is empty. */
    function GetClipRect(): (r: Option<Rect>)
      reads this`clipStack
      ensures r.Some? <==> |clipStack| > 0
      ensures r.Some? ==> r.value == CurrentClip()
    {
      if |clipStack| > 0 then Some(clipStack[|clipStack| - 1]) else None
    }

    /** pl__push_clip_rect_pt: the rectangle is pushed as given. */
    method PushClipRectPt(r: Rect)
      modifies this`clipStack
      ensures clipStack == old(clipStack) + [r]
    {
      clipStack := clipStack + [r];
    }

    /**
     * pl__push_clip_rect: with accumulation and a non-empty stack the pushed
     * rectangle is first intersected with the current top, so it never
     * reaches outside it.
     */
    method PushClipRect(r: Rect, accumulate: bool)
      modifies this`clipStack
      ensures |clipStack| == |old(clipStack)| + 1 && clipStack[..|old(clipStack)|] == old(clipStack)
      ensures accumulate && |old(clipStack)| > 0 ==>
                CurrentClip() == Intersect(r, old(CurrentClip())) &&
                Within(CurrentClip(), old(CurrentClip())) && Within(CurrentClip(), r)
      ensures !(accumulate && |old(clipStack)| > 0) ==> CurrentClip() == r
    {
      var pushed := r;
      if accumulate && |clipStack| > 0 {
        pushed := Intersect(r, clipStack[|clipStack| - 1]);
      }
      clipStack := clipStack + [pushed];
    }

    /** pl__pop_clip_rect: undoes the matching push. */
    method PopClipRect()
      requires |clipStack| > 0
      modifies this`clipStack
      ensures clipStack == old(clipStack)[..|old(clipStack)| - 1]
    {
      clipStack := clipStack[..|clipStack| - 1];
    }

    /**
     * pl__request_draw_layer: a cached layer is reused (the most recently
     * returned first); only when the cache is empty is a new, empty layer
     * created and recorded. A given name is copied with strncpy into the
     * name field of `maxNameLength` bytes (PL_MAX_NAME_LENGTH), so a longer
     * name is cut to that length.
     */
    method RequestLayer(name: Option<string>, maxNameLength: nat) returns (layer: DrawLayer)
      requires Valid()
      modifies this`layerCache, this`layersCreated, this`layersCreatedCount
      modifies if |layerCache| > 0 then {layerCache[|layerCache| - 1]} else {}
      ensures Valid() && layer.drawlist == this && layer in layersCreated
      ensures |old(layerCache)| > 0 ==>
                layer == old(layerCache)[|old(layerCache)| - 1] &&
                layerCache == old(layerCache)[..|old(layerCache)| - 1] &&
                layersCreated == old(layersCreated) &&
                layer.Snapshot() == old(layer.Snapshot())
      ensures |old(layerCache)| == 0 ==>
                fresh(layer) && layerCache == [] &&
                layersCreated == old(layersCreated) + [layer] &&
                layer.Snapshot() == EmptyLayer(vertexBufferSize)
      ensures name.Some? ==> layer.name == StoredName(name.value, maxNameLength)
      ensures name.None? && |old(layerCache)| > 0 ==> layer.name == old(layer.name)
      ensures name.None? && |old(layerCache)| == 0 ==> layer.name == ""
    {
      if |layerCache| > 0 {
        layer := layerCache[|layerCache| - 1];
        layerCache := layerCache[..|layerCache| - 1];
      } else {
        layersCreatedCount := layersCreatedCount + 1;
        layer := new DrawLayer(this);
        layersCreated := layersCreated + [layer];
      }
      if name.Some? {
        layer.name := StoredName(name.value, maxNameLength);
      }
    }

    /**
     * The drawlist half of pl__new_draw_frame: buffers and submission list
     * are cleared and every layer submitted this frame is emptied in place.
     */
    method ResetFrame()
      requires Valid()
      modifies this`vertexBufferSize, this`drawCommands, this`submittedLayers, this`indexBufferByteSize
      modifies submittedLayers
      ensures Valid() && FrameReset() && KeptPool()
      ensures forall l :: l in old(submittedLayers) ==> l.Emptied() && l.name == old(l.name)
    {
      indexBufferByteSize := 0;
      drawCommands := [];
      vertexBufferSize := 0;
      var j := 0;
      while j < |submittedLayers|
        invariant 0 <= j <= |submittedLayers| && Valid()
        invariant vertexBufferSize == 0 && submittedLayers == old(submittedLayers)
        invariant drawCommands == [] && indexBufferByteSize == 0
        invariant forall k :: 0 <= k < j ==> submittedLayers[k].Emptied()
        invariant forall l :: l in submittedLayers ==> l.name == old(l.name)
      {
        submittedLayers[j].Clear();
        j := j + 1;
      }
      submittedLayers := [];
    }
  }

  /** A layer (plDrawLayer): its command and index buffers, path scratch and vertex count. */
  class DrawLayer {
    const drawlist: DrawList
    var name: string
    var commandBuffer: seq<DrawCommand>
    var indexBuffer: seq<nat>
    /** Number of points in the path scratch buffer (sbPath). */
    var pathLength: nat
    var vertexCount: nat
    /** Whether `_lastCommand` is set; it then designates the top of commandBuffer. */
    var hasLastCommand: bool

    constructor(drawlist: DrawList)
      ensures this.drawlist == drawlist && name == ""
      ensures Snapshot() == EmptyLayer(drawlist.vertexBufferSize)
    {
      this.drawlist := drawlist;
      name := "";
      commandBuffer := [];
      indexBuffer := [];
      pathLength := 0;
      vertexCount := 0;
      hasLastCommand := false;
    }

    /** The layer and the drawlist-wide vertex count, as a value. */
    function Snapshot(): LayerState
      reads this`commandBuffer, this`indexBuffer, this`vertexCount, this`hasLastCommand, this`pathLength
      reads drawlist`vertexBufferSize
    {
      LayerState(commandBuffer, indexBuffer, vertexCount, hasLastCommand, pathLength, drawlist.vertexBufferSize)
    }

    predicate Valid()
      reads this`hasLastCommand, this`commandBuffer
    {
      hasLastCommand ==> |commandBuffer| > 0
    }

    function AtlasTexture(): TextureId
      reads drawlist.ctx`fontAtlasTexture
    {
      drawlist.ctx.fontAtlasTexture
    }

    /** Buffers empty, path empty, no vertices counted and no last command. */
    predicate Emptied()
      reads this
    {
      commandBuffer == [] && indexBuffer == [] && pathLength == 0 && vertexCount == 0 && !hasLastCommand
    }

    /** Buffers emptied and `_lastCommand` cleared; the name is left alone. */
    method Clear()
      modifies this`commandBuffer, this`indexBuffer, this`pathLength, this`vertexCount, this`hasLastCommand
      ensures Valid() && Emptied()
      ensures Snapshot() == EmptyLayer(drawlist.vertexBufferSize)
    {
      commandBuffer := [];
      indexBuffer := [];
      pathLength := 0;
      vertexCount := 0;
      hasLastCommand := false;
    }

    /**
     * pl__return_draw_layer: the name is cleared, the buffers are emptied
     * and the layer goes to the top of its drawlist's cache.
     */
    method ReturnToPool()
      requires drawlist.Valid() && this in drawlist.layersCreated
      modifies this`name, this`commandBuffer, this`indexBuffer, this`pathLength, this`vertexCount
      modifies this`hasLastCommand, drawlist`layerCache
      ensures drawlist.Valid() && Valid() && name == ""
      ensures Snapshot() == EmptyLayer(drawlist.vertexBufferSize)
      ensures drawlist.layerCache == old(drawlist.layerCache) + [this]
    {
      name := "";
      Clear();
      drawlist.layerCache := drawlist.layerCache + [this];
    }

    /**
     * pl__submit_draw_layer: the layer joins the drawlist's submission list
     * and its index buffer's byte size (four bytes per index) is added.
     */
    method Submit()
      requires drawlist.Valid() && this in drawlist.layersCreated
      modifies drawlist`submittedLayers, drawlist`indexBufferByteSize
      ensures drawlist.Valid()
      ensures drawlist.submittedLayers == old(drawlist.submittedLayers) + [this]
      ensures drawlist.indexBufferByteSize == old(drawlist.indexBufferByteSize) + 4 * |indexBuffer|
    {
      drawlist.submittedLayers := drawlist.submittedLayers + [this];
      drawlist.indexBufferByteSize := drawlist.indexBufferByteSize + |indexBuffer| * 4;
    }

    /** pl__prepare_draw_command, with the source's two flag tests. */
    method Prepare(texture: TextureId, sdf: bool)
      requires Valid()
      modifies this`commandBuffer, this`hasLastCommand
      ensures Valid()
      ensures Snapshot() == Prepared(old(Snapshot()), texture, sdf, drawlist.CurrentClip())
    {
      var clip := drawlist.CurrentClip();
      var createNew := true;
      if hasLastCommand {
        var last := commandBuffer[|commandBuffer| - 1];
        if last.textureId == texture && last.sdf == sdf {
          createNew := false;
        }
        if last.clip.max.x != clip.max.x || last.clip.max.y != clip.max.y ||
           last.clip.min.x != clip.min.x || last.clip.min.y != clip.min.y {
          createNew := true;
        }
      }
      if createNew {
        commandBuffer := commandBuffer + [DrawCommand(drawlist.vertexBufferSize, |indexBuffer|, 0, texture, sdf, clip)];
      }
      hasLastCommand := true;
    }

    /** pl__reserve_triangles: capacity is not modelled; the counts are. */
    method Reserve(indexCount: nat, vertexCount: nat)
      requires Valid() && hasLastCommand
      modifies this`commandBuffer, this`vertexCount
      ensures Valid()
      ensures Snapshot() == Reserved(old(Snapshot()), indexCount, vertexCount)
    {
      var k := |commandBuffer| - 1;
      commandBuffer := commandBuffer[k := commandBuffer[k].(elementCount := commandBuffer[k].elementCount + indexCount)];
      this.vertexCount := this.vertexCount + vertexCount;
    }

    /** pl__add_vertex: one vertex pushed on the drawlist's shared buffer. */
    method AddVertex()
      modifies drawlist`vertexBufferSize
      ensures drawlist.vertexBufferSize == old(drawlist.vertexBufferSize) + 1
    {
      drawlist.vertexBufferSize := drawlist.vertexBufferSize + 1;
    }

    /** pl__add_index: one triangle relative to vertexStart. */
    method AddIndex(vertexStart: nat, i0: nat, i1: nat, i2: nat)
      modifies this`indexBuffer
      ensures indexBuffer == old(indexBuffer) + [vertexStart + i0, vertexStart + i1, vertexStart + i2]
    {
      indexBuffer := indexBuffer + [vertexStart + i0, vertexStart + i1, vertexStart + i2];
    }

    method PathPush()
      modifies this`pathLength
      ensures pathLength == old(pathLength) + 1
    {
      pathLength := pathLength + 1;
    }

    /** pl__add_lines: one quad (four vertices, six indices) per segment. */
    method AddLines(count: nat)
      requires Valid()
      modifies this`commandBuffer, this`hasLastCommand, this`vertexCount, this`indexBuffer
      modifies drawlist`vertexBufferSize
      ensures Valid()
      ensures Snapshot() == Apply(old(Snapshot()), Lines(count), AtlasTexture(), drawlist.CurrentClip())
    {
      Prepare(AtlasTexture(), false);
      Reserve(6 * count, 4 * count);
      AddSegmentQuads(count);
    }

    /** The loop of pl__add_lines: four vertices and two triangles per segment. */
    method AddSegmentQuads(count: nat)
      modifies this`indexBuffer, drawlist`vertexBufferSize
      ensures drawlist.vertexBufferSize == old(drawlist.vertexBufferSize) + 4 * count
      ensures indexBuffer == old(indexBuffer) + SegmentIndices(old(drawlist.vertexBufferSize), count)
    {
      var i := 0;
      while i < count
        invariant 0 <= i <= count
        invariant drawlist.vertexBufferSize == old(drawlist.vertexBufferSize) + 4 * i
        invariant indexBuffer == old(indexBuffer) + SegmentIndices(old(drawlist.vertexBufferSize), i)
      {
        var vertexStart := drawlist.vertexBufferSize;
        AddVertex();
        AddVertex();
        AddVertex();
        AddVertex();
        AddIndex(vertexStart, 0, 1, 2);
        AddIndex(vertexStart, 0, 2, 3);
        i := i + 1;
      }
    }

    /** pl__submit_path: the path's points become segments and the path is emptied. */
    method SubmitPath()
      requires Valid() && pathLength >= 1
      modifies this`commandBuffer, this`hasLastCommand, this`vertexCount, this`indexBuffer
      modifies this`pathLength, drawlist`vertexBufferSize
      ensures Valid()
      ensures Snapshot() == LinesAndClear(old(Snapshot()), AtlasTexture(), drawlist.CurrentClip())
    {
      AddLines(pathLength - 1);
      pathLength := 0;
    }

    /** pl__add_line: two points pushed and submitted as one segment. */
    method AddLine()
      requires Valid()
      modifies this`commandBuffer, this`hasLastCommand, this`vertexCount, this`indexBuffer
      modifies this`pathLength, drawlist`vertexBufferSize
      ensures Valid()
      ensures Snapshot() == Apply(old(Snapshot()), Line, AtlasTexture(), drawlist.CurrentClip())
    {
      ghost var s0 := Snapshot();
      PathPush();
      PathPush();
      assert Snapshot() == PreState(s0, Line);
      SubmitPath();
      PathPrimitiveIsSubmit(s0, Line, AtlasTexture(), drawlist.CurrentClip());
    }

    /** pl__add_triangle: a closed outline of three segments (the first point is pushed again). */
    method AddTriangle()
      requires Valid()
      modifies this`commandBuffer, this`hasLastCommand, this`vertexCount, this`indexBuffer
      modifies this`pathLength, drawlist`vertexBufferSize
      ensures Valid()
      ensures Snapshot() == Apply(old(Snapshot()), Triangle, AtlasTexture(), drawlist.CurrentClip())
    {
      ghost var s0 := Snapshot();
      PathPush();
      PathPush();
      PathPush();
      PathPush();
      assert Snapshot() == PreState(s0, Triangle);
      SubmitPath();
      PathPrimitiveIsSubmit(s0, Triangle, AtlasTexture(), drawlist.CurrentClip());
    }

    /** pl__add_rect: a closed outline of four segments. */
    method AddRect()
      requires Valid()
      modifies this`commandBuffer, this`hasLastCommand, this`vertexCount, this`indexBuffer
      modifies this`pathLength, drawlist`vertexBufferSize
      ensures Valid()
      ensures Snapshot() == Apply(old(Snapshot()), RectOutline, AtlasTexture(), drawlist.CurrentClip())
    {
      ghost var s0 := Snapshot();
      PathPush();
      PathPush();
      PathPush();
      PathPush();
      PathPush();
      assert Snapshot() == PreState(s0, RectOutline);
      SubmitPath();
      PathPrimitiveIsSubmit(s0, RectOutline, AtlasTexture(), drawlist.CurrentClip());
    }

    /** pl__add_quad: a closed outline of four segments. */
    method AddQuad()
      requires Valid()
      modifies this`commandBuffer, this`hasLastCommand, this`vertexCount, this`indexBuffer
      modifies this`pathLength, drawlist`vertexBufferSize
      ensures Valid()
      ensures Snapshot() == Apply(old(Snapshot()), Quad, AtlasTexture(), drawlist.CurrentClip())
    {
      ghost var s0 := Snapshot();
      PathPush();
      PathPush();
      PathPush();
      PathPush();
      PathPush();
      assert Snapshot() == PreState(s0, Quad);
      SubmitPath();
      PathPrimitiveIsSubmit(s0, Quad, AtlasTexture(), drawlist.CurrentClip());
    }

    /** pl__add_circle: `segments` points around the circle (12 when 0) and the first one again. */
    method AddCircle(segments: nat)
      requires Valid()
      modifies this`commandBuffer, this`hasLastCommand, this`vertexCount, this`indexBuffer
      modifies this`pathLength, drawlist`vertexBufferSize
      ensures Valid()
      ensures Snapshot() == Apply(old(Snapshot()), Circle(segments), AtlasTexture(), drawlist.CurrentClip())
    {
      ghost var s0 := Snapshot();
      var n := if segments == 0 then 12 else segments;
      var i := 0;
      while i < n
        invariant 0 <= i <= n && Valid()
        invariant Snapshot() == s0.(pathLength := s0.pathLength + i)
      {
        PathPush();
        i := i + 1;
      }
      PathPush();
      assert Snapshot() == PreState(s0, Circle(segments));
      SubmitPath();
      PathPrimitiveIsSubmit(s0, Circle(segments), AtlasTexture(), drawlist.CurrentClip());
    }

    /** pl__add_bezier_quad and pl__add_bezier_cubic: the start point, `segments` - 1 points on the curve (12 segments when 0 is asked for) and the end point. */
    method AddBezier(segments: nat)
      requires Valid()
      modifies this`commandBuffer, this`hasLastCommand, this`vertexCount, this`indexBuffer
      modifies this`pathLength, drawlist`vertexBufferSize
      ensures Valid()
      ensures Snapshot() == Apply(old(Snapshot()), Bezier(segments), AtlasTexture(), drawlist.CurrentClip())
    {
      ghost var s0 := Snapshot();
      var n := if segments == 0 then 12 else segments;
      PathPush();
      var i := 1;
      while i < n
        invariant 1 <= i <= n && Valid()
        invariant Snapshot() == s0.(pathLength := s0.pathLength + i)
      {
        PathPush();
        i := i + 1;
      }
      PathPush();
      assert Snapshot() == PreState(s0, Bezier(segments));
      SubmitPath();
      PathPrimitiveIsSubmit(s0, Bezier(segments), AtlasTexture(), drawlist.CurrentClip());
    }

    /** pl__add_rect_rounded: four corner arcs of `segments` segments each (3 when 0) and the first point again. */
    method AddRectRounded(segments: nat)
      requires Valid()
      modifies this`commandBuffer, this`hasLastCommand, this`vertexCount, this`indexBuffer
      modifies this`pathLength, drawlist`vertexBufferSize
      ensures Valid()
      ensures Snapshot() == Apply(old(Snapshot()), RectRounded(segments), AtlasTexture(), drawlist.CurrentClip())
    {
      ghost var s0 := Snapshot();
      var n := if segments == 0 then 3 else segments;
      PushCorner(n);
      PushCorner(n);
      PushCorner(n);
      PushCorner(n);
      PathPush();
      assert Snapshot() == PreState(s0, RectRounded(segments));
      SubmitPath();
      PathPrimitiveIsSubmit(s0, RectRounded(segments), AtlasTexture(), drawlist.CurrentClip());
    }

    /** One corner arc of the rounded outline: its start, n - 1 inner points and its end. */
    method PushCorner(n: nat)
      requires n >= 1
      modifies this`pathLength
      ensures pathLength == old(pathLength) + n + 1
    {
      PathPush();
      var i := 1;
      while i < n
        invariant 1 <= i <= n && pathLength == old(pathLength) + i
      {
        PathPush();
        i := i + 1;
      }
      PathPush();
    }

    /** pl__add_triangle_filled: three vertices, one triangle. */
    method AddTriangleFilled()
      requires Valid()
      modifies this`commandBuffer, this`hasLastCommand, this`vertexCount, this`indexBuffer
      modifies this`pathLength, drawlist`vertexBufferSize
      ensures Valid()
      ensures Snapshot() == Apply(old(Snapshot()), TriangleFilled, AtlasTexture(), drawlist.CurrentClip())
    {
      ghost var s0 := Snapshot();
      Prepare(AtlasTexture(), false);
      Reserve(3, 3);
      ghost var s1 := Snapshot();
      var vertexStart := drawlist.vertexBufferSize;
      AddVertex();
      AddVertex();
      AddVertex();
      AddIndex(vertexStart, 0, 1, 2);
      assert Snapshot() == Appended(s1, 3, TriangleIndices(vertexStart));
      FillIsEmit(s0, TriangleFilled, AtlasTexture(), drawlist.CurrentClip());
    }

    /** pl__add_rect_filled: four vertices, triangles (0,1,2) and (0,2,3). */
    method AddRectFilled()
      requires Valid()
      modifies this`commandBuffer, this`hasLastCommand, this`vertexCount, this`indexBuffer
      modifies this`pathLength, drawlist`vertexBufferSize
      ensures Valid()
      ensures Snapshot() == Apply(old(Snapshot()), RectFilled, AtlasTexture(), drawlist.CurrentClip())
    {
      ghost var s0 := Snapshot();
      Prepare(AtlasTexture(), false);
      Reserve(6, 4);
      ghost var s1 := Snapshot();
      var vertexStart := drawlist.vertexBufferSize;
      AddQuadGeometry();
      assert Snapshot() == Appended(s1, 4, QuadIndices(vertexStart));
      FillIsEmit(s0, RectFilled, AtlasTexture(), drawlist.CurrentClip());
    }

    /** pl__add_quad_filled: four vertices, triangles (0,1,2) and (0,2,3). */
    method AddQuadFilled()
      requires Valid()
      modifies this`commandBuffer, this`hasLastCommand, this`vertexCount, this`indexBuffer
      modifies this`pathLength, drawlist`vertexBufferSize
      ensures Valid()
      ensures Snapshot() == Apply(old(Snapshot()), QuadFilled, AtlasTexture(), drawlist.CurrentClip())
    {
      ghost var s0 := Snapshot();
      Prepare(AtlasTexture(), false);
      Reserve(6, 4);
      ghost var s1 := Snapshot();
      var vertexStart := drawlist.vertexBufferSize;
      AddQuadGeometry();
      assert Snapshot() == Appended(s1, 4, QuadIndices(vertexStart));
      FillIsEmit(s0, QuadFilled, AtlasTexture(), drawlist.CurrentClip());
    }

    /** pl__add_image and pl__add_image_ex: a textured quad drawn with the image's own texture. */
    method AddImage(texture: TextureId)
      requires Valid()
      modifies this`commandBuffer, this`hasLastCommand, this`vertexCount, this`indexBuffer
      modifies this`pathLength, drawlist`vertexBufferSize
      ensures Valid()
      ensures Snapshot() == Apply(old(Snapshot()), Image(texture), AtlasTexture(), drawlist.CurrentClip())
    {
      ghost var s0 := Snapshot();
      Prepare(texture, false);
      Reserve(6, 4);
      ghost var s1 := Snapshot();
      var vertexStart := drawlist.vertexBufferSize;
      AddQuadGeometry();
      assert Snapshot() == Appended(s1, 4, QuadIndices(vertexStart));
      FillIsEmit(s0, Image(texture), AtlasTexture(), drawlist.CurrentClip());
    }

    /** Four vertices and the triangles (0,1,2), (0,2,3) over them. */
    method AddQuadGeometry()
      modifies this`indexBuffer, drawlist`vertexBufferSize
      ensures drawlist.vertexBufferSize == old(drawlist.vertexBufferSize) + 4
      ensures indexBuffer == old(indexBuffer) + QuadIndices(old(drawlist.vertexBufferSize))
    {
      var vertexStart := drawlist.vertexBufferSize;
      AddVertex();
      AddVertex();
      AddVertex();
      AddVertex();
      AddIndex(vertexStart, 0, 1, 2);
      AddIndex(vertexStart, 0, 2, 3);
    }

    /** pl__add_circle_filled: a centre vertex, `segments` rim vertices (12 when 0) and a closed fan. */
    method AddCircleFilled(segments: nat)
      requires Valid()
      modifies this`commandBuffer, this`hasLastCommand, this`vertexCount, this`indexBuffer
      modifies this`pathLength, drawlist`vertexBufferSize
      ensures Valid()
      ensures Snapshot() == Apply(old(Snapshot()), CircleFilled(segments), AtlasTexture(), drawlist.CurrentClip())
    {
      ghost var s0 := Snapshot();
      var n := if segments == 0 then 12 else segments;
      Prepare(AtlasTexture(), false);
      Reserve(3 * n, n + 1);
      ghost var s1 := Snapshot();
      var vertexStart := drawlist.vertexBufferSize;
      AddCircleFan(n);
      assert Snapshot() == Appended(s1, n + 1, Fan(vertexStart, n));
      FillIsEmit(s0, CircleFilled(segments), AtlasTexture(), drawlist.CurrentClip());
    }

    /** The vertices and indices of the filled circle: centre, n rim points, n triangles. */
    method AddCircleFan(n: nat)
      requires n >= 1
      modifies this`indexBuffer, drawlist`vertexBufferSize
      ensures drawlist.vertexBufferSize == old(drawlist.vertexBufferSize) + n + 1
      ensures indexBuffer == old(indexBuffer) + Fan(old(drawlist.vertexBufferSize), n)
    {
      var vertexStart := drawlist.vertexBufferSize;
      AddVertex();
      var i := 0;
      while i < n
        invariant 0 <= i <= n && drawlist.vertexBufferSize == vertexStart + 1 + i
        invariant indexBuffer == old(indexBuffer)
      {
        AddVertex();
        i := i + 1;
      }
      AddFanIndices(vertexStart, n);
    }

    /** pl__add_rect_rounded_filled as written: a centre vertex, four corner arcs of `segments` segments (3 when 0) and a closed fan of 4 * segments + 4 triangles, of which only one index per triangle is reserved. */
    method AddRectRoundedFilled(segments: nat)
      requires Valid()
      modifies this`commandBuffer, this`hasLastCommand, this`vertexCount, this`indexBuffer
      modifies this`pathLength, drawlist`vertexBufferSize
      ensures Valid()
      ensures Snapshot() == Apply(old(Snapshot()), RectRoundedFilled(segments), AtlasTexture(), drawlist.CurrentClip())
    {
      ghost var s0 := Snapshot();
      var n := if segments == 0 then 3 else segments;
      var triangles := 4 * n + 4;
      Prepare(AtlasTexture(), false);
      Reserve(triangles, triangles + 1);
      ghost var s1 := Snapshot();
      var vertexStart := drawlist.vertexBufferSize;
      AddRoundedFan(n);
      assert Snapshot() == Appended(s1, triangles + 1, Fan(vertexStart, triangles));
      FillIsEmit(s0, RectRoundedFilled(segments), AtlasTexture(), drawlist.CurrentClip());
    }

    /**
     * The filled rounded rectangle with three indices reserved per triangle,
     * which keeps the last command covering every index it appends.
     */
    method AddRectRoundedFilledCorrected(segments: nat)
      requires Valid()
      modifies this`commandBuffer, this`hasLastCommand, this`vertexCount, this`indexBuffer
      modifies this`pathLength, drawlist`vertexBufferSize
      ensures Valid()
      ensures Snapshot() == RoundedFillCorrected(old(Snapshot()), segments, AtlasTexture(), drawlist.CurrentClip())
    {
      ghost var s0 := Snapshot();
      var n := if segments == 0 then 3 else segments;
      var triangles := 4 * n + 4;
      Prepare(AtlasTexture(), false);
      Reserve(3 * triangles, triangles + 1);
      ghost var s1 := Snapshot();
      var vertexStart := drawlist.vertexBufferSize;
      AddRoundedFan(n);
      assert Snapshot() == Appended(s1, triangles + 1, Fan(vertexStart, triangles));
    }

    /**
     * The vertices and indices of the filled rounded rectangle: the centre,
     * four corners of n + 1 points each, and 4n + 4 triangles.
     */
    method AddRoundedFan(n: nat)
      requires n >= 1
      modifies this`indexBuffer, drawlist`vertexBufferSize
      ensures drawlist.vertexBufferSize == old(drawlist.vertexBufferSize) + 4 * n + 5
      ensures indexBuffer == old(indexBuffer) + Fan(old(drawlist.vertexBufferSize), 4 * n + 4)
    {
      var vertexStart := drawlist.vertexBufferSize;
      AddVertex();
      AddCornerVertices(n);
      AddCornerVertices(n);
      AddCornerVertices(n);
      AddCornerVertices(n);
      AddFanIndices(vertexStart, 4 * n + 4);
    }

    /** The vertices of one filled corner: its start, n - 1 arc points and its end. */
    method AddCornerVertices(n: nat)
      requires n >= 1
      modifies drawlist`vertexBufferSize
      ensures drawlist.vertexBufferSize == old(drawlist.vertexBufferSize) + n + 1
    {
      AddVertex();
      var i := 1;
      while i < n
        invariant 1 <= i <= n && drawlist.vertexBufferSize == old(drawlist.vertexBufferSize) + i
      {
        AddVertex();
        i := i + 1;
      }
      AddVertex();
    }

    /**
     * The index loop shared by the filled circle and the filled rounded
     * rectangle: triangles (i+1, 0, i+2) for i < n - 1, closed by (n, 0, 1).
     */
    method AddFanIndices(vertexStart: nat, n: nat)
      requires n >= 1
      modifies this`indexBuffer
      ensures indexBuffer == old(indexBuffer) + Fan(vertexStart, n)
    {
      var i := 0;
      while i < n - 1
        invariant 0 <= i <= n - 1
        invariant indexBuffer == old(indexBuffer) + FanPrefix(vertexStart, i)
      {
        AddIndex(vertexStart, i + 1, 0, i + 2);
        i := i + 1;
      }
      AddIndex(vertexStart, n, 0, 1);
    }
  }
}
