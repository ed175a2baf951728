// 3D drawlists: filled triangles go to one vertex/index buffer pair, thick
// lines to a second pair. As in the 2D layer, vertex contents are not
// modelled; each vertex buffer is tracked by its size.
module Draw3D {
  import opened DrawModel

  class DrawList3D {
    var vertexBufferSize: nat
    var indexBuffer: seq<nat>
    var lineVertexBufferSize: nat
    var lineIndexBuffer: seq<nat>

    /**
     * Every index names an existing vertex of its own buffer; triangles add
     * three vertices and three indices, lines four vertices and six indices.
     */
    predicate Valid()
      reads this
    {
      (forall k :: 0 <= k < |indexBuffer| ==> indexBuffer[k] < vertexBufferSize) &&
      (forall k :: 0 <= k < |lineIndexBuffer| ==> lineIndexBuffer[k] < lineVertexBufferSize) &&
      |indexBuffer| == vertexBufferSize &&
      2 * |lineIndexBuffer| == 3 * lineVertexBufferSize
    }

    /** All four buffers empty. */
    predicate Cleared()
      reads this
    {
      Valid() && vertexBufferSize == 0 && indexBuffer == [] &&
      lineVertexBufferSize == 0 && lineIndexBuffer == []
    }

    /** A registered drawlist starts out zeroed. */
    constructor()
      ensures Valid()
      ensures vertexBufferSize == 0 && indexBuffer == []
      ensures lineVertexBufferSize == 0 && lineIndexBuffer == []
    {
      vertexBufferSize := 0;
      indexBuffer := [];
      lineVertexBufferSize := 0;
      lineIndexBuffer := [];
    }

    /** The per-frame reset: all four buffers are emptied. */
    method Reset()
      modifies this
      ensures Cleared()
    {
      vertexBufferSize := 0;
      indexBuffer := [];
      lineVertexBufferSize := 0;
      lineIndexBuffer := [];
    }

    /** Three vertices and one triangle (vs, vs+1, vs+2); the line buffers are untouched. */
    method AddTriangleFilled()
      requires Valid()
      modifies this`vertexBufferSize, this`indexBuffer
      ensures Valid()
      ensures indexBuffer == old(indexBuffer) + TriangleIndices(old(vertexBufferSize))
      ensures vertexBufferSize == old(vertexBufferSize) + 3
    {
      var vertexStart := vertexBufferSize;
      vertexBufferSize := vertexBufferSize + 3;
      indexBuffer := indexBuffer + [vertexStart + 0];
      indexBuffer := indexBuffer + [vertexStart + 1];
      indexBuffer := indexBuffer + [vertexStart + 2];
    }

    /** One thick line: four line vertices and the two triangles (0,1,2), (0,2,3). */
    method AddLine()
      requires Valid()
      modifies this`lineVertexBufferSize, this`lineIndexBuffer
      ensures Valid()
      ensures lineIndexBuffer == old(lineIndexBuffer) + QuadIndices(old(lineVertexBufferSize))
      ensures lineVertexBufferSize == old(lineVertexBufferSize) + 4
    {
      var vertexStart := lineVertexBufferSize;
      lineVertexBufferSize := lineVertexBufferSize + 4;
      lineIndexBuffer := lineIndexBuffer + [vertexStart + 0, vertexStart + 1, vertexStart + 2];
      lineIndexBuffer := lineIndexBuffer + [vertexStart + 0, vertexStart + 2, vertexStart + 3];
    }

    /**
     * `count` lines issued one after another; the frustum and the box issue
     * their twelve edges this way.
     */
    method AddLineRun(count: nat)
      requires Valid()
      modifies this`lineVertexBufferSize, this`lineIndexBuffer
      ensures Valid()
      ensures lineIndexBuffer == old(lineIndexBuffer) + SegmentIndices(old(lineVertexBufferSize), count)
      ensures lineVertexBufferSize == old(lineVertexBufferSize) + 4 * count
    {
      var i := 0;
      while i < count
        invariant 0 <= i <= count && Valid()
        invariant lineIndexBuffer == old(lineIndexBuffer) + SegmentIndices(old(lineVertexBufferSize), i)
        invariant lineVertexBufferSize == old(lineVertexBufferSize) + 4 * i
      {
        AddLine();
        i := i + 1;
      }
    }

    /** A point marker: three axis-aligned lines through it. */
    method AddPoint()
      requires Valid()
      modifies this`lineVertexBufferSize, this`lineIndexBuffer
      ensures Valid()
      ensures lineIndexBuffer == old(lineIndexBuffer) + SegmentIndices(old(lineVertexBufferSize), 3)
      ensures lineVertexBufferSize == old(lineVertexBufferSize) + 12
    {
      ghost var b, v := lineIndexBuffer, lineVertexBufferSize;
      AddLine();
      AppendedLine(b, v, 0);
      AddLine();
      AppendedLine(b, v, 1);
      AddLine();
      AppendedLine(b, v, 2);
    }

    /** A transform gizmo: one line per axis. */
    method AddTransform()
      requires Valid()
      modifies this`lineVertexBufferSize, this`lineIndexBuffer
      ensures Valid()
      ensures lineIndexBuffer == old(lineIndexBuffer) + SegmentIndices(old(lineVertexBufferSize), 3)
      ensures lineVertexBufferSize == old(lineVertexBufferSize) + 12
    {
      ghost var b, v := lineIndexBuffer, lineVertexBufferSize;
      AddLine();
      AppendedLine(b, v, 0);
      AddLine();
      AppendedLine(b, v, 1);
      AddLine();
      AppendedLine(b, v, 2);
    }

    /** A frustum outline: the twelve edges of its near and far rectangles and the four sides. */
    method AddFrustum()
      requires Valid()
      modifies this`lineVertexBufferSize, this`lineIndexBuffer
      ensures Valid()
      ensures lineIndexBuffer == old(lineIndexBuffer) + SegmentIndices(old(lineVertexBufferSize), 12)
      ensures lineVertexBufferSize == old(lineVertexBufferSize) + 48
    {
      AddLineRun(12);
    }

    /** A box outline: its twelve edges. */
    method AddCenteredBox()
      requires Valid()
      modifies this`lineVertexBufferSize, this`lineIndexBuffer
      ensures Valid()
      ensures lineIndexBuffer == old(lineIndexBuffer) + SegmentIndices(old(lineVertexBufferSize), 12)
      ensures lineVertexBufferSize == old(lineVertexBufferSize) + 48
    {
      AddLineRun(12);
    }

    /**
     * A Bezier curve (quadratic or cubic: both walk the same loop) drawn as
     * one line per segment, with 12 segments when 0 is asked for.
     */
    method AddBezier(segments: nat)
      requires Valid()
      modifies this`lineVertexBufferSize, this`lineIndexBuffer
      ensures Valid()
      ensures lineIndexBuffer == old(lineIndexBuffer) + SegmentIndices(old(lineVertexBufferSize), Segments(segments, 12))
      ensures lineVertexBufferSize == old(lineVertexBufferSize) + 4 * Segments(segments, 12)
    {
      var s := if segments == 0 then 12 else segments;
      var i := 1;
      while i < s
        invariant 1 <= i <= s && Valid()
        invariant lineIndexBuffer == old(lineIndexBuffer) + SegmentIndices(old(lineVertexBufferSize), i - 1)
        invariant lineVertexBufferSize == old(lineVertexBufferSize) + 4 * (i - 1)
      {
        AddLine();
        i := i + 1;
      }
      AddLine();
    }
  }

  /** One more line after k lines extends the run of segment indices by one segment. */
  lemma AppendedLine(b: seq<nat>, v: nat, k: nat)
    ensures b + SegmentIndices(v, k) + QuadIndices(v + 4 * k) == b + SegmentIndices(v, k + 1)
  {
    assert SegmentIndices(v, k + 1) == SegmentIndices(v, k) + QuadIndices(v + 4 * k);
  }
}
