// The UI's inline helpers: the text-input state that wraps a stb_textedit
// editor (cursor, selection, buffers, undo counters) and the three layout
// helpers that read the current window (cursor position, vertical culling,
// frame height). Floats are modelled as exact reals.
module UiTextState {
  import opened Common
  import opened Geometry

  /** Number of undo records stb_textedit keeps (STB_TEXTEDIT_UNDOSTATECOUNT). */
  const UndoStateCount: int := 99

  /** Value the cursor blink timer restarts from after every user action. */
  const CursorAnimRestart: real := -0.30

  /** The two counters of stb_textedit's undo buffer used by the UI. */
  datatype UndoState = UndoState(undoPoint: int, redoPoint: int)

  /** The part of stb_textedit's STB_TexteditState the UI helpers touch. */
  datatype TexteditState = TexteditState(
    cursor: int,
    selectStart: int,
    selectEnd: int,
    hasPreferredX: bool,
    undostate: UndoState)

  /** A selection exists exactly when its two ends differ. */
  predicate HasSelection(s: TexteditState)
    ensures HasSelection(s) ==> s.selectStart != s.cursor || s.selectEnd != s.cursor
  {
    s.selectStart != s.selectEnd
  }

  /** Cursor and both selection ends lie in 0..len. */
  predicate InBounds(s: TexteditState, len: int)
  {
    0 <= s.cursor <= len && 0 <= s.selectStart <= len && 0 <= s.selectEnd <= len
  }

  /** Smaller of two ints (pl_min). */
  function MinInt(a: int, b: int): (r: int)
    ensures r <= a && r <= b && (r == a || r == b)
  {
    if a < b then a else b
  }

  /**
   * Cursor and selection ends each cut down to `len`: every one ends at most
   * `len`, a position already inside is kept, and nothing else changes.
   */
  function Clamped(s: TexteditState, len: int): (r: TexteditState)
    ensures r.cursor <= len && r.selectStart <= len && r.selectEnd <= len
    ensures r.cursor <= s.cursor && r.selectStart <= s.selectStart && r.selectEnd <= s.selectEnd
    ensures r.cursor == s.cursor || r.cursor == len
    ensures r.selectStart == s.selectStart || r.selectStart == len
    ensures r.selectEnd == s.selectEnd || r.selectEnd == len
    ensures r.hasPreferredX == s.hasPreferredX && r.undostate == s.undostate
  {
    s.(cursor := MinInt(s.cursor, len),
       selectStart := MinInt(s.selectStart, len),
       selectEnd := MinInt(s.selectEnd, len))
  }

  /** Both selection ends collapse onto the cursor: no selection is left. */
  function SelectionCleared(s: TexteditState): (r: TexteditState)
    ensures !HasSelection(r)
    ensures r.cursor == s.cursor && r.hasPreferredX == s.hasPreferredX && r.undostate == s.undostate
  {
    s.(selectStart := s.cursor, selectEnd := s.cursor)
  }

  /**
   * The selection spans the whole text with the cursor at its end; a
   * selection exists afterwards exactly when the text is not empty.
   */
  function AllSelected(s: TexteditState, len: int): (r: TexteditState)
    ensures HasSelection(r) <==> len != 0
    ensures r.selectStart == 0 && r.selectEnd == len && r.cursor == len
    ensures !r.hasPreferredX && r.undostate == s.undostate
  {
    s.(selectStart := 0, cursor := len, selectEnd := len, hasPreferredX := false)
  }

  /** Clamping to a length the state already fits in changes nothing. */
  lemma ClampInBoundsIsIdentity(s: TexteditState, len: int)
    requires InBounds(s, len)
    ensures Clamped(s, len) == s
  {
  }

  /** Clamping twice is clamping once. */
  lemma ClampIdempotent(s: TexteditState, len: int)
    ensures Clamped(Clamped(s, len), len) == Clamped(s, len)
  {
  }

  /** From non-negative positions, clamping to a length >= 0 lands in bounds. */
  lemma ClampEstablishesBounds(s: TexteditState, len: int)
    requires 0 <= len && 0 <= s.cursor && 0 <= s.selectStart && 0 <= s.selectEnd
    ensures InBounds(Clamped(s, len), len)
  {
  }

  /** Selecting all keeps the state in bounds for a text of length len >= 0. */
  lemma SelectAllInBounds(s: TexteditState, len: int)
    requires 0 <= len
    ensures InBounds(AllSelected(s, len), len)
  {
  }

  /**
   * stb_textedit fills undo records upward from 0 and redo records downward
   * from UndoStateCount, so undoPoint <= redoPoint. Under that invariant both
   * counts are non-negative and together never exceed the buffer size.
   */
  predicate UndoValid(u: UndoState)
  {
    0 <= u.undoPoint <= u.redoPoint <= UndoStateCount
  }

  function UndoAvail(u: UndoState): (n: int)
    ensures UndoValid(u) ==> 0 <= n <= UndoStateCount
  {
    u.undoPoint
  }

  function RedoAvail(u: UndoState): (n: int)
    ensures UndoValid(u) ==> 0 <= n <= UndoStateCount
    ensures n == 0 <==> u.redoPoint == UndoStateCount
  {
    UndoStateCount - u.redoPoint
  }

  lemma UndoRedoShareBuffer(u: UndoState)
    requires UndoValid(u)
    ensures UndoAvail(u) + RedoAvail(u) <= UndoStateCount
    ensures UndoAvail(u) + RedoAvail(u) == UndoStateCount <==> u.undoPoint == u.redoPoint
  {
  }

  /**
   * plInputTextState: the text being edited, held both as wide characters and
   * as UTF-8, with their lengths, the editor state and the cursor blink timer.
   * The buffers are stretchy buffers with at least one slot once the widget
   * is active.
   */
  class InputTextState {
    var lengthW: int
    var lengthA: int
    var textW: seq<int>
    var textA: seq<byte>
    var stb: TexteditState
    var cursorAnim: real

    /** Restart the blink timer so the cursor shows immediately. */
    method CursorAnimReset()
      modifies this`cursorAnim
      ensures cursorAnim == CursorAnimRestart
    {
      cursorAnim := CursorAnimRestart;
    }

    /** Pull cursor and selection back inside the current wide-character length. */
    method CursorClamp()
      modifies this`stb
      ensures stb == Clamped(old(stb), lengthW)
      ensures stb.cursor <= lengthW && stb.selectStart <= lengthW && stb.selectEnd <= lengthW
    {
      stb := Clamped(stb, lengthW);
    }

    predicate HasSelectionNow()
      reads this`stb
    {
      HasSelection(stb)
    }

    method ClearSelection()
      modifies this`stb
      ensures stb == SelectionCleared(old(stb))
      ensures !HasSelectionNow() && stb.cursor == old(stb.cursor)
    {
      stb := stb.(selectStart := stb.cursor);
      stb := stb.(selectEnd := stb.cursor);
    }

    /** The cursor: a position in the text whenever the state is in bounds. */
    function CursorPosition(): (c: int)
      reads this`stb, this`lengthW
      ensures InBounds(stb, lengthW) ==> 0 <= c <= lengthW
    {
      stb.cursor
    }

    /** Where the selection was started: a position in the text whenever the state is in bounds. */
    function SelectionStart(): (c: int)
      reads this`stb, this`lengthW
      ensures InBounds(stb, lengthW) ==> 0 <= c <= lengthW
    {
      stb.selectStart
    }

    /** Where the selection ends: a position in the text whenever the state is in bounds. */
    function SelectionEnd(): (c: int)
      reads this`stb, this`lengthW
      ensures InBounds(stb, lengthW) ==> 0 <= c <= lengthW
    {
      stb.selectEnd
    }

    method SelectAll()
      modifies this`stb
      ensures stb == AllSelected(old(stb), lengthW)
      ensures HasSelectionNow() <==> lengthW != 0
    {
      stb := stb.(selectStart := 0);
      stb := stb.(selectEnd := lengthW);
      stb := stb.(cursor := stb.selectEnd);
      stb := stb.(hasPreferredX := false);
    }

    /**
     * Empty the text: both lengths become 0, both buffers start with a
     * terminator, and cursor and selection are clamped to the new length.
     */
    method ClearText()
      requires |textA| >= 1 && |textW| >= 1
      modifies this`lengthA, this`lengthW, this`textA, this`textW, this`stb
      ensures lengthA == 0 && lengthW == 0
      ensures textA == old(textA)[0 := 0] && textW == old(textW)[0 := 0]
      ensures stb == Clamped(old(stb), 0)
    {
      lengthW := 0;
      lengthA := 0;
      textA := textA[0 := 0];
      textW := textW[0 := 0];
      CursorClamp();
    }

  }

  /**
   * After the text is cleared, a state whose positions were non-negative has
   * cursor and both selection ends at 0, and so no selection.
   */
  lemma ClearedTextHasNoSelection(s: TexteditState)
    requires 0 <= s.cursor && 0 <= s.selectStart && 0 <= s.selectEnd
    ensures Clamped(s, 0).cursor == 0 && Clamped(s, 0).selectStart == 0 && Clamped(s, 0).selectEnd == 0
    ensures !HasSelection(Clamped(s, 0)) && InBounds(Clamped(s, 0), 0)
  {
  }

  // ---------------------------------------------------------------------
  // Layout helpers
  // ---------------------------------------------------------------------

  /** The style fields the helpers read (plUiStyle). */
  datatype UiStyle = UiStyle(fontSize: real, indentSize: real, framePadding: Vec2)

  /** The layout-row fields the cursor depends on (plUiLayoutRow). */
  datatype LayoutRow = LayoutRow(horizontalOffset: real, verticalOffset: real)

  /** The per-frame window data the cursor depends on (plUiTempWindowData). */
  datatype TempWindowData = TempWindowData(
    treeDepth: nat,
    currentLayoutRow: LayoutRow,
    rowPos: Vec2,
    accumRowX: real)

  /** Height of a framed widget: one line of text plus vertical padding on both sides. */
  function FrameHeight(style: UiStyle): (h: real)
    ensures h >= style.fontSize <==> style.framePadding.y >= 0.0
    ensures h == style.fontSize <==> style.framePadding.y == 0.0
  {
    style.fontSize + style.framePadding.y * 2.0
  }

  /** Where the next widget starts inside the current window. */
  function CursorPos(temp: TempWindowData, style: UiStyle): (p: Vec2)
    ensures temp.treeDepth == 0 ==>
      p == Vec2(temp.rowPos.x + temp.accumRowX + temp.currentLayoutRow.horizontalOffset,
                temp.rowPos.y + temp.currentLayoutRow.verticalOffset)
    ensures style.indentSize >= 0.0 ==>
      p.x >= temp.rowPos.x + temp.accumRowX + temp.currentLayoutRow.horizontalOffset
  {
    Vec2(temp.rowPos.x + temp.accumRowX + temp.currentLayoutRow.horizontalOffset
           + (temp.treeDepth as real) * style.indentSize,
         temp.rowPos.y + temp.currentLayoutRow.verticalOffset)
  }

  /**
   * Opening one more tree level moves the cursor right by one indent and
   * leaves its height alone.
   */
  lemma CursorPosIndentStep(temp: TempWindowData, style: UiStyle)
    ensures CursorPos(temp.(treeDepth := temp.treeDepth + 1), style)
         == Vec2(CursorPos(temp, style).x + style.indentSize, CursorPos(temp, style).y)
  {
  }

  /**
   * The cursor's height depends on the row position and the row's vertical
   * offset only: tree depth, indent, horizontal offsets play no part.
   */
  lemma CursorPosYIgnoresIndent(temp: TempWindowData, style: UiStyle, depth: nat, accum: real, hOffset: real, indent: real)
    ensures CursorPos(temp.(treeDepth := depth, accumRowX := accum,
                            currentLayoutRow := temp.currentLayoutRow.(horizontalOffset := hOffset)),
                      style.(indentSize := indent)).y
         == CursorPos(temp, style).y
  {
  }

  /** A widget is drawn unless it lies wholly above or wholly below the window. */
  predicate ShouldRender(startPos: Vec2, widgetSize: Vec2, windowPos: Vec2, windowSize: Vec2)
    ensures widgetSize.y >= 0.0 && windowPos.y <= startPos.y <= windowPos.y + windowSize.y ==>
              ShouldRender(startPos, widgetSize, windowPos, windowSize)
  {
    !(startPos.y + widgetSize.y < windowPos.y || startPos.y > windowPos.y + windowSize.y)
  }

  /**
   * For non-negative heights, a widget is drawn exactly when its vertical
   * span [y, y + h] and the window's span share at least one point.
   */
  lemma ShouldRenderIffOverlap(startPos: Vec2, widgetSize: Vec2, windowPos: Vec2, windowSize: Vec2)
    requires widgetSize.y >= 0.0 && windowSize.y >= 0.0
    ensures ShouldRender(startPos, widgetSize, windowPos, windowSize)
        <==> MaxReal(startPos.y, windowPos.y) <= MinReal(startPos.y + widgetSize.y, windowPos.y + windowSize.y)
  {
  }

  /** A point of the widget's span inside the window's span forces drawing, and vice versa. */
  lemma ShouldRenderWitness(startPos: Vec2, widgetSize: Vec2, windowPos: Vec2, windowSize: Vec2, y: real)
    requires startPos.y <= y <= startPos.y + widgetSize.y
    requires windowPos.y <= y <= windowPos.y + windowSize.y
    ensures ShouldRender(startPos, widgetSize, windowPos, windowSize)
  {
  }

  lemma CulledWidgetMissesWindow(startPos: Vec2, widgetSize: Vec2, windowPos: Vec2, windowSize: Vec2, y: real)
    requires !ShouldRender(startPos, widgetSize, windowPos, windowSize)
    requires startPos.y <= y <= startPos.y + widgetSize.y
    ensures y < windowPos.y || y > windowPos.y + windowSize.y
  {
  }
}
