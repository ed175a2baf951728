# pilotlight draw extension and UI text state, modelled in Dafny

This project models the core of pilotlight's immediate-mode drawing extension
(`extensions/pl_draw_ext.c`) and the inline text-input and layout helpers of
its UI (`ui/pl_ui_internal.h`):

- **Batching engine.** A draw context, its 2D drawlists and their layers are
  classes whose methods grow stretchy buffers in place: the shared vertex
  buffer, each layer's command, index and path buffers, the layer pool and
  the clip stack. Each 2D primitive method is proved to change its layer
  exactly as a value function (`DrawModel.Apply`) says. Lemmas about that
  function prove two facts. First, draw commands keep tiling the index
  buffer (each command's element count equals the indices it covers).
  Second, every index names a vertex that exists. Runs of same-state
  primitives batch into one command.
- **3D drawlists.** Append-only triangle and line buffers.
- **Text walk.** The walk decodes code points and looks up glyph ranges. It
  moves a pen and emits one quad per drawable glyph. The unclipped walk emits
  exactly one quad per drawable code point; the clipped walk emits at most
  that many.
- **Embedded default font.** Three parts:
  - a base-85 decoder, with a round trip against an encoder;
  - an LZ-style decompressor that writes through a bounded output cursor;
  - Adler-32, proved equal to the definition in section 2.2 of RFC 1950.

  The block-wise loop is proved never to overflow 32 bits.
- **Font atlas bookkeeping that does not go through stb.** It covers:
  - ranges from individual characters;
  - glyph counts;
  - the size and the contents of the dense code-point table (proved to give
    every ranged code point an existing glyph);
  - the atlas height;
  - the pixel-buffer growth;
  - the blit of custom rectangles into the alpha buffer;
  - the alpha-to-RGBA expansion, which can be read back.
- **UI text state.** The selection helpers of the text-input state (clamp,
  select-all, clear-selection, clear-text, undo/redo counts), the widget
  cursor position, the vertical culling test and the frame height.

Floats are modelled as exact reals where they steer control flow (clip
rectangles, the text pen, layout). Vertex positions, UVs and colours are not
modelled: buffers of vertices are tracked by their size.

Modules: `Common`, `Geometry`, `DrawModel` (value model of a layer),
`Draw` (context, drawlist and layer classes), `Draw3D`, `DrawText`,
`FontDecode`, `FontAtlas`, `UiTextState`.

## Model

| member | source | states |
|---|---|---|
| DrawModel.NeedsNewCommand | extensions/pl_draw_ext.c:1821-1862 | the batching rule: a new command is needed without a last command, or when texture, sdf flag or clip differ from it (no contract of its own; PreparedFacts states its effect) |
| DrawModel.Prepared | extensions/pl_draw_ext.c:1821-1862 | after preparing, the layer has a last command and stays well formed |
| DrawModel.Reserved | extensions/pl_draw_ext.c:1864-1871 | the last command's element count grows by the reserved indices and the layer's vertex count by the reserved vertices (no contract of its own; FillIsEmit and EmitKeepsTiling state its effect) |
| DrawModel.PreparedFacts | extensions/pl_draw_ext.c:1821-1862 | a command is pushed iff there is no last command, or the texture, the SDF flag or any clip bound differs; a new command starts at the current vertex-buffer size and index count with element count 0; the last command then carries the requested texture, flag and clip |
| DrawModel.SegmentIndices | extensions/pl_draw_ext.c:287-322 | `count` segments append 6·count indices |
| DrawModel.SegmentIndicesInRange | extensions/pl_draw_ext.c:287-322 | segment i only names its own four vertices vs+4i .. vs+4i+3 |
| DrawModel.FanPrefix | extensions/pl_draw_ext.c:775-796 | k fan triangles are 3k indices |
| DrawModel.FanPrefixInRange | extensions/pl_draw_ext.c:775-796 | the first k fan triangles name only the centre and rim vertices 1 .. k+1 |
| DrawModel.Fan | extensions/pl_draw_ext.c:775-796 | a closed fan of n triangles is 3n indices |
| DrawModel.FanInRange | extensions/pl_draw_ext.c:775-796 | a closed fan of n triangles names only its n+1 vertices |
| DrawModel.Segments | extensions/pl_draw_ext.c:760-773 | a segment count of 0 becomes the primitive's positive default; any other count is kept |
| DrawModel.StepIndices | extensions/pl_draw_ext.c:659-731 | each primitive appends as many indices as it reserves, except the filled rounded rectangle, which appends three times as many |
| DrawModel.StepIndicesInRange | extensions/pl_draw_ext.c:1894-1900 | every index a primitive appends is vertexStart + i for a vertex i that the same primitive appends |
| DrawModel.Apply | extensions/pl_draw_ext.c:147-149 | any primitive keeps the layer well formed |
| DrawModel.FillIsEmit | extensions/pl_draw_ext.c:573-590 | a filled primitive is one prepare, reserve and append step with its own vertex and index counts |
| DrawModel.PathPrimitiveIsSubmit | extensions/pl_draw_ext.c:147-149 | a path primitive pushes its points, then submits the path: one segment per consecutive pair, and the path is emptied |
| DrawModel.ApplyFacts | extensions/pl_draw_ext.c:147-149 | after any primitive there is a last command with its texture and the current clip; at most one command is opened; the vertex buffer and the layer's vertex count grow by the appended vertices; path primitives leave the path empty |
| DrawModel.ApplyAll | extensions/pl_draw_ext.c:1821-1862 | any run of primitives keeps the layer well formed |
| DrawModel.PreparedKeepsTiling | extensions/pl_draw_ext.c:1821-1862 | opening or reusing a command keeps the commands tiling the index buffer |
| DrawModel.EmitKeepsTiling | extensions/pl_draw_ext.c:1864-1871 | reserving exactly as many indices as are appended keeps the tiling |
| DrawModel.ApplyKeepsTiling | extensions/pl_draw_ext.c:1864-1871 | every primitive except the filled rounded rectangle grows the element count by exactly the indices it appends |
| DrawModel.RoundedFillBreaksTiling | extensions/pl_draw_ext.c:665 | as written, the filled rounded rectangle reserves 4s+4 indices and appends 3(4s+4), so the tiling is broken afterwards |
| DrawModel.RoundedFillCorrected | extensions/pl_draw_ext.c:659-731 | the filled rounded rectangle with 3(4s+4) indices reserved (no contract of its own; the two lemmas after it state its properties) |
| DrawModel.RoundedFillCorrectedKeepsTiling | extensions/pl_draw_ext.c:659-731 | reserving one index per appended index restores the tiling |
| DrawModel.RoundedFillCorrectedKeepsIndicesValid | extensions/pl_draw_ext.c:659-731 | the corrected rounded fill still names only vertices it appends |
| DrawModel.EmitKeepsIndicesValid | extensions/pl_draw_ext.c:1894-1900 | appending indices into the vertices just appended keeps every index below the vertex-buffer size |
| DrawModel.ApplyKeepsIndicesValid | extensions/pl_draw_ext.c:1894-1900 | every 2D primitive, the rounded fill included, keeps every index below the vertex-buffer size |
| DrawModel.ApplyAllKeepsTiling | extensions/pl_draw_ext.c:1821-1862 | tiling survives any run of primitives without a filled rounded rectangle |
| DrawModel.ApplyExtendsMatchingCommand | extensions/pl_draw_ext.c:1821-1862 | a primitive whose texture, flag and clip match the last command only grows that command |
| DrawModel.ApplyOpensFirstCommand | extensions/pl_draw_ext.c:1821-1862 | the first primitive of an empty layer opens exactly one command at offset 0 |
| DrawModel.SameStateBatchesIntoOneCommand | extensions/pl_draw_ext.c:1821-1862 | a non-empty run of atlas-texture primitives under one clip, drawn into an empty layer, ends in a single command that starts at the front of both buffers and carries every reserved index |
| DrawModel.BatchCoversIndexBuffer | extensions/pl_draw_ext.c:1864-1871 | without a filled rounded rectangle, that single command covers exactly the whole index buffer |
| Geometry.Intersect | extensions/pl_draw_ext.c:1540-1546 | the accumulated clip lies inside both rectangles and is the largest rectangle that does |
| Geometry.MaxReal | extensions/pl_draw_ext.c:136 | the larger of two values: at least both, and one of them |
| Geometry.MinReal | extensions/pl_draw_ext.c:1544 | the smaller of two values, at most both and one of them, as `pl_rect_clip_full` takes it for the accumulated clip's upper bounds |
| Geometry.Contains | extensions/pl_draw_ext.c:511 | the clip test of the clipped text walk: a point is inside when it lies between the bounds, bounds included (the definition of `pl_rect_contains_point` is assumed, see Left out) |
| Draw.DrawContext.constructor | extensions/pl_draw_ext.c:165-174 | a context starts with no drawlists and frame count 0 |
| Draw.DrawContext.RegisterDrawlist | extensions/pl_draw_ext.c:176-182 | a zeroed drawlist bound to the context is appended to its list |
| Draw.DrawContext.Register3DDrawlist | extensions/pl_draw_ext.c:184-190 | a zeroed 3D drawlist is appended to its list |
| Draw.DrawContext.NewFrame | extensions/pl_draw_ext.c:232-270 | the frame count grows by one; every drawlist is reset with its pool and clip stack kept; every layer submitted last frame is emptied and keeps its name; every 3D drawlist is cleared |
| Draw.DrawContext.ResetDrawlists | extensions/pl_draw_ext.c:237-256 | every 2D drawlist is reset and every layer it submitted is emptied and keeps its name |
| Draw.DrawContext.ResetAt | extensions/pl_draw_ext.c:240-255 | drawlist i is reset; its submitted layers are emptied and keep their names |
| Draw.DrawContext.Reset3DDrawlists | extensions/pl_draw_ext.c:258-267 | every 3D drawlist is cleared |
| Draw.DrawList.constructor | extensions/pl_draw_ext.c:176-182 | a registered drawlist starts with empty buffers, pool and clip stack |
| Draw.DrawList.CurrentClip | extensions/pl_draw_ext.c:1821-1862 | new commands record the top of the clip stack, or the zero rectangle when it is empty |
| Draw.DrawList.GetClipRect | extensions/pl_draw_ext.c:1554-1560 | the top of the stack, or nothing exactly when the stack is empty |
| Draw.DrawList.PushClipRectPt | extensions/pl_draw_ext.c:1534-1538 | the rectangle is pushed unchanged |
| Draw.DrawList.PushClipRect | extensions/pl_draw_ext.c:1540-1546 | the stack grows by one with the rest kept; the new top is the intersection with the old top when accumulating onto a non-empty stack, and the rectangle itself otherwise |
| Draw.DrawList.PopClipRect | extensions/pl_draw_ext.c:1548-1552 | the top is removed |
| Draw.DrawList.RequestLayer | extensions/pl_draw_ext.c:192-218 | a non-empty cache is popped; otherwise a fresh empty layer is created, counted and appended to the created list; a given name is stored cut to `maxNameLength` characters (strncpy into PL_MAX_NAME_LENGTH bytes), else the reused layer's own name stays, else it is empty; only the popped layer may change, so every other cached layer keeps its name and buffers |
| Draw.StoredName | extensions/pl_draw_ext.c:215 | the stored name is a prefix of the given one no longer than the field, the whole name when it fits and exactly the field's length otherwise |
| Draw.DrawList.ResetFrame | extensions/pl_draw_ext.c:240-255 | byte size zeroed; commands, vertex buffer and submitted list emptied; the layers submitted are emptied but keep their names and stay out of the cache; pool and clip stack kept |
| Draw.DrawLayer.constructor | extensions/pl_draw_ext.c:205-212 | a new layer is empty and unnamed |
| Draw.DrawLayer.Clear | extensions/pl_draw_ext.c:247-254 | command, index and path buffers emptied, vertex count 0, no last command |
| Draw.DrawLayer.ReturnToPool | extensions/pl_draw_ext.c:220-230 | the layer is emptied, its name cleared, and it is pushed onto the cache |
| Draw.DrawLayer.Submit | extensions/pl_draw_ext.c:272-277 | the layer is appended to the submitted list and the byte size grows by 4 per index |
| Draw.DrawLayer.Prepare | extensions/pl_draw_ext.c:1821-1862 | the layer changes exactly as DrawModel.Prepared says, under the drawlist's current clip |
| Draw.DrawLayer.Reserve | extensions/pl_draw_ext.c:1864-1871 | only the last command's element count and the layer's vertex count grow |
| Draw.DrawLayer.AddVertex | extensions/pl_draw_ext.c:1873-1892 | the shared vertex buffer grows by one |
| Draw.DrawLayer.AddIndex | extensions/pl_draw_ext.c:1894-1900 | three indices vertexStart + i0, i1, i2 are appended |
| Draw.DrawLayer.PathPush | extensions/pl_draw_ext.c:282-283 | the path grows by one point |
| Draw.DrawLayer.AddLines | extensions/pl_draw_ext.c:287-322 | the layer changes as DrawModel.Apply says for `count` segments |
| Draw.DrawLayer.AddSegmentQuads | extensions/pl_draw_ext.c:293-321 | 4 vertices and the two triangles of each segment over its own vertices |
| Draw.DrawLayer.SubmitPath | extensions/pl_draw_ext.c:147-149 | the path's points become segments and the path is emptied |
| Draw.DrawLayer.AddLine | extensions/pl_draw_ext.c:279-285 | two points submitted as one segment, as DrawModel.Apply says |
| Draw.DrawLayer.AddTriangle | extensions/pl_draw_ext.c:535-543 | a closed outline of three segments |
| Draw.DrawLayer.AddRect | extensions/pl_draw_ext.c:559-571 | a closed outline of four segments |
| Draw.DrawLayer.AddQuad | extensions/pl_draw_ext.c:733-742 | a closed outline of four segments |
| Draw.DrawLayer.AddCircle | extensions/pl_draw_ext.c:760-773 | s segments (12 when 0) around the circle |
| Draw.DrawLayer.AddBezier | extensions/pl_draw_ext.c:824-893 | s segments (12 when 0) along the curve |
| Draw.DrawLayer.AddRectRounded | extensions/pl_draw_ext.c:593-656 | four corner arcs, 4s+4 segments (s = 3 when 0) |
| Draw.DrawLayer.PushCorner | extensions/pl_draw_ext.c:617-624 | one corner pushes n+1 points |
| Draw.DrawLayer.AddTriangleFilled | extensions/pl_draw_ext.c:545-557 | three vertices, one triangle |
| Draw.DrawLayer.AddRectFilled | extensions/pl_draw_ext.c:573-590 | four vertices, triangles (0,1,2) and (0,2,3) |
| Draw.DrawLayer.AddQuadFilled | extensions/pl_draw_ext.c:744-758 | four vertices, triangles (0,1,2) and (0,2,3) |
| Draw.DrawLayer.AddImage | extensions/pl_draw_ext.c:798-821 | a quad drawn with the image's own texture |
| Draw.DrawLayer.AddQuadGeometry | extensions/pl_draw_ext.c:573-590 | four vertices and the two triangles over them |
| Draw.DrawLayer.AddCircleFilled | extensions/pl_draw_ext.c:775-796 | a centre vertex, s rim vertices (12 when 0), a closed fan of s triangles |
| Draw.DrawLayer.AddCircleFan | extensions/pl_draw_ext.c:780-795 | n+1 vertices and the closed fan over them |
| Draw.DrawLayer.AddRectRoundedFilled | extensions/pl_draw_ext.c:659-731 | as written: 4s+5 vertices, a reservation of 4s+4 indices and a closed fan of 4s+4 triangles |
| Draw.DrawLayer.AddRectRoundedFilledCorrected | extensions/pl_draw_ext.c:659-731 | the same with a reservation of 3(4s+4) indices |
| Draw.DrawLayer.AddRoundedFan | extensions/pl_draw_ext.c:688-729 | 4n+5 vertices and a closed fan of 4n+4 triangles over them |
| Draw.DrawLayer.AddCornerVertices | extensions/pl_draw_ext.c:691-698 | one corner appends n+1 vertices |
| Draw.DrawLayer.AddFanIndices | extensions/pl_draw_ext.c:727-729 | the closed fan's indices around vertexStart |
| Draw3D.DrawList3D.constructor | extensions/pl_draw_ext.c:184-190 | a registered 3D drawlist starts with four empty buffers |
| Draw3D.DrawList3D.Reset | extensions/pl_draw_ext.c:258-267 | all four buffers emptied |
| Draw3D.DrawList3D.AddTriangleFilled | extensions/pl_draw_ext.c:895-917 | three vertices and one triangle; the line buffers are untouched |
| Draw3D.DrawList3D.AddLine | extensions/pl_draw_ext.c:919-965 | four line vertices and two triangles; the triangle buffers are untouched |
| Draw3D.DrawList3D.AddLineRun | extensions/pl_draw_ext.c:919-965 | `count` lines, 4 vertices and 6 indices each |
| Draw3D.DrawList3D.AddPoint | extensions/pl_draw_ext.c:967-982 | three lines |
| Draw3D.DrawList3D.AddTransform | extensions/pl_draw_ext.c:984-996 | three lines, one per axis |
| Draw3D.DrawList3D.AddFrustum | extensions/pl_draw_ext.c:998-1029 | twelve lines |
| Draw3D.DrawList3D.AddCenteredBox | extensions/pl_draw_ext.c:1031-1061 | twelve lines |
| Draw3D.DrawList3D.AddBezier | extensions/pl_draw_ext.c:1064-1139 | s lines (12 when 0) |
| Draw3D.AppendedLine | extensions/pl_draw_ext.c:919-965 | one more line after k extends the segment indices by one segment |
| DrawText.RangeFrom | extensions/pl_draw_ext.c:365-367 | the first range from index i on that holds c, or none when no later range does |
| DrawText.FindRange | extensions/pl_draw_ext.c:364-421 | the scan finds the first range holding the code point, or none |
| DrawText.CodePoints | extensions/pl_draw_ext.c:340-350 | the walk visits at most one code point per byte |
| DrawText.AsciiCodePoints | extensions/pl_draw_ext.c:342-344 | pure ASCII text is walked byte for byte |
| DrawText.AnyMissing | extensions/pl_draw_ext.c:423 | the "Glyph not found" assertion fires iff some visited code point other than '\n' and '\r' lies in no range |
| DrawText.CountDrawable | extensions/pl_draw_ext.c:404-416 | at most one quad per code point; none iff no code point is drawable |
| DrawText.Params | extensions/pl_draw_ext.c:334-336 | the scale is size over the font size (1 when no size is given); line spacing is scaled with it |
| DrawText.ClippedQuadsAtMostDrawable | extensions/pl_draw_ext.c:435-533 | the clip gate only removes quads |
| DrawText.UnclippedQuadsCountDrawable | extensions/pl_draw_ext.c:331-426 | without a clip the walk emits exactly one quad per drawable code point, wherever the pen goes |
| DrawText.Glyphs | extensions/pl_draw_ext.c:404-416 | glyph quads keep the layer well formed |
| DrawText.GlyphsCounts | extensions/pl_draw_ext.c:404-416 | n glyphs add 6n indices after the old ones and 4n vertices |
| DrawText.GlyphsShareOneCommand | extensions/pl_draw_ext.c:406 | a whole text goes into the command the first glyph prepares, growing by 6 per glyph |
| DrawText.GlyphsKeepTiling | extensions/pl_draw_ext.c:404-416 | glyph quads keep the tiling |
| DrawText.GlyphsKeepIndicesValid | extensions/pl_draw_ext.c:414-415 | glyph quads name only their own four vertices |
| DrawText.EmitGlyph | extensions/pl_draw_ext.c:404-416 | one more glyph quad on top of the n already emitted |
| DrawText.PlaceGlyph | extensions/pl_draw_ext.c:376-403 | the first glyph moves right by a positive left bearing; a glyph past the wrap width starts a new line; the pen then advances |
| DrawText.DecodeAt | extensions/pl_draw_ext.c:340-350 | a byte below 0x80 advances one byte; other bytes go to the decoder; a decoded 0 stops the walk |
| DrawText.WalkStep | extensions/pl_draw_ext.c:340-425 | the quads and the missing-glyph flag of a code point followed by the rest |
| DrawText.PenStep | extensions/pl_draw_ext.c:352-424 | '\n' resets x and adds the line spacing; '\r' does nothing; a found glyph moves the pen and is emitted unless it is a space |
| DrawText.WalkCodePoint | extensions/pl_draw_ext.c:352-424 | one code point: the pen step, then its quad if one is due |
| DrawText.TextWalk | extensions/pl_draw_ext.c:340-425 | the layer ends with one glyph quad per code point the gate lets through; the flag says whether a glyph was missing |
| DrawText.AddTextEx | extensions/pl_draw_ext.c:331-426 | the unclipped walk, scaled to the size |
| DrawText.AddTextClippedEx | extensions/pl_draw_ext.c:435-533 | the walk with the containment gate |
| DrawText.Strlen | extensions/pl_draw_ext.c:324-329 | the index of the first 0 byte |
| DrawText.AddText | extensions/pl_draw_ext.c:324-329 | the walk over the bytes before the terminator: one quad per drawable code point, and the glyph-missing flag is set iff one of those code points has no glyph |
| DrawText.AddTextClipped | extensions/pl_draw_ext.c:428-433 | the clipped walk over the bytes before the terminator, with the glyph-missing flag set iff one of those code points has no glyph |
| FontDecode.Le32Bytes | extensions/pl_draw_ext.c:1961-1964 | a word is stored as four bytes; Le32RoundTrip reads them back as the word |
| FontDecode.DecodeGroups | extensions/pl_draw_ext.c:1955-1968 | `count` groups give 4·count bytes; their contents are fixed by Base85RoundTrip and DecodeGroupsPrefix |
| FontDecode.GroupCount | extensions/pl_draw_ext.c:1958 | a string of whole groups and a terminator has 5n+1 characters |
| FontDecode.StoreGroup | extensions/pl_draw_ext.c:1961-1964 | the four bytes go to dst[j..j+4] little-endian; nothing else changes |
| FontDecode.DecodeGroup | extensions/pl_draw_ext.c:1960-1966 | group g becomes bytes 4g .. 4g+3 |
| FontDecode.Decode85 | extensions/pl_draw_ext.c:1955-1968 | the output holds the decoded groups up to the terminator; the rest of dst is untouched |
| FontDecode.Group85 | extensions/pl_draw_ext.c:1953 | a word is five base-85 characters; GroupRoundTrip decodes them back to the word |
| FontDecode.EncodeWords | extensions/pl_draw_ext.c:1955-1968 | the encoding of `count` words is 5·count characters; Base85RoundTrip decodes it back to the words |
| FontDecode.Decode85Digit | extensions/pl_draw_ext.c:1953 | a character's digit value is below 85 exactly for characters 35 to 120; characters below 35 or from 0x80 on decode through a negative value to a uint32 of at least 2^32 - 163 |
| FontDecode.DigitRoundTrip | extensions/pl_draw_ext.c:1953 | every digit character decodes back to its digit and is never 0 or a backslash |
| FontDecode.GroupChars | extensions/pl_draw_ext.c:1953 | group characters are never 0 or a backslash |
| FontDecode.GroupRoundTrip | extensions/pl_draw_ext.c:1960 | a group decodes back to the word it encodes |
| FontDecode.Le32RoundTrip | extensions/pl_draw_ext.c:1961-1964 | storing a word gives back its four bytes |
| FontDecode.DecodeGroupsPrefix | extensions/pl_draw_ext.c:1955-1968 | decoded groups depend only on their own characters |
| FontDecode.Base85RoundTrip | extensions/pl_draw_ext.c:1955-1968 | decoding the text of the first `count` words gives those words back |
| FontDecode.EncodedDigits | extensions/pl_draw_ext.c:1958 | the encoded text contains no 0 byte and no backslash |
| FontDecode.EncodedIsBase85String | extensions/pl_draw_ext.c:1958 | encoded text plus terminator is a string the decoder accepts |
| FontDecode.AdlerRfc | extensions/pl_draw_ext.c:2018-2051 | both RFC 1950 sums stay below 65521 |
| FontDecode.AddCongruent | extensions/pl_draw_ext.c:2045-2046 | congruent summands give congruent sums |
| FontDecode.AdlerRfcSums | extensions/pl_draw_ext.c:2018-2051 | the RFC 1950 definition computes the reduced byte sum and running sum |
| FontDecode.AdlerRfcAgrees | extensions/pl_draw_ext.c:2018-2051 | seeded with 1, the checksum is the Adler-32 of section 2.2 of RFC 1950 |
| FontDecode.AdlerByte | extensions/pl_draw_ext.c:2031-2043 | one unreduced byte step keeps the sums congruent to the specification |
| FontDecode.AdlerReduce | extensions/pl_draw_ext.c:2045-2046 | reducing the sums keeps them congruent |
| FontDecode.BlockBound | extensions/pl_draw_ext.c:2024 | within a block of 5552 bytes the unreduced s2 stays below 2^32 |
| FontDecode.TriangleBound | extensions/pl_draw_ext.c:2024 | the triangular sum is monotone up to 5552 and is 15415128 there |
| FontDecode.TriangleClosed | extensions/pl_draw_ext.c:2024 | 2·(1+…+j) = j(j+1) |
| FontDecode.AddBlock | extensions/pl_draw_ext.c:2029-2043 | adding a block of at most 5552 bytes tracks the specification without overflow |
| FontDecode.Adler32 | extensions/pl_draw_ext.c:2018-2051 | the block loop returns the specified checksum for any seed |
| FontDecode.AdlerResult | extensions/pl_draw_ext.c:2050 | reduced sums that track all the data give the checksum |
| FontDecode.Be32Bytes | extensions/pl_draw_ext.c:1993-1995 | a word is four big-endian bytes; Be32RoundTrip and Be32ReadBack make it the inverse of Be32 |
| FontDecode.StreamHeader | extensions/pl_draw_ext.c:2058-2063 | a header is 16 bytes; HeaderLength reads back its length, magic and zero words |
| FontDecode.Be32RoundTrip | extensions/pl_draw_ext.c:1993-1995 | reading a big-endian word back gives the value written |
| FontDecode.HeaderLength | extensions/pl_draw_ext.c:1944-1950 | the length read from a header is the size it was written with; the magic and zero words read back |
| FontDecode.DecompressLength | extensions/pl_draw_ext.c:1944-1950 | 0 for a NULL stream; otherwise the word whose big-endian bytes are bytes 8 to 11 of the stream |
| FontDecode.Be16 | extensions/pl_draw_ext.c:1993 | a two-byte big-endian read is below 2^16 |
| FontDecode.Be24 | extensions/pl_draw_ext.c:1994 | a three-byte big-endian read is below 2^24 |
| FontDecode.Be32 | extensions/pl_draw_ext.c:1995 | a four-byte big-endian read is a uint32 (its byte-level inverse is Be32ReadBack) |
| FontDecode.Be32ReadBack | extensions/pl_draw_ext.c:1995 | writing back a word read big-endian gives the four bytes it was read from, the converse of Be32RoundTrip |
| FontDecode.ParseToken | extensions/pl_draw_ext.c:1997-2016 | the token at i, or none exactly when its header runs past the input; literals follow their header; matches reach back at least 1; bytes 0x00-0x03 and 0x05 start no token |
| FontDecode.MatchBytes | extensions/pl_draw_ext.c:1981 | a back-reference appends len bytes, each a copy of the byte dist places before it |
| FontDecode.MatchWithoutOverlap | extensions/pl_draw_ext.c:1981 | a back-reference no longer than its distance copies a slice of earlier output |
| FontDecode.TokenStep | extensions/pl_draw_ext.c:1997-2016 | a token moves the input forward by at least 2 and only appends to the output, within the announced size; it does not advance exactly on a byte that starts no token |
| FontDecode.EndCheck | extensions/pl_draw_ext.c:2074-2082 | only the end token yields a result; it is the size exactly when the output is complete and the checksum after the token matches |
| FontDecode.Iteration | extensions/pl_draw_ext.c:2070-2087 | with the stuck byte rejected, every pass moves forward or stops; a non-zero stop is the size with the stream accepted |
| FontDecode.IterationAsWritten | extensions/pl_draw_ext.c:2070-2087 | the loop as written differs only by staying put on a stuck byte |
| FontDecode.PassesAsWritten | extensions/pl_draw_ext.c:2070-2087 | k passes of the loop as written keep the output within the size |
| FontDecode.StuckTokenNeverStops | extensions/pl_draw_ext.c:2074-2083 | as written, a byte 0x00-0x03, or 0x05 not followed by 0xFA, is a fixed point: the loop never ends |
| FontDecode.StuckTokenRejected | extensions/pl_draw_ext.c:2074-2083 | with the rejection restored, the same byte ends decompression with 0 |
| FontDecode.Run | extensions/pl_draw_ext.c:2070-2088 | the loop with a stuck byte rejected (see Findings): it ends with 0 or the size, and succeeds only at an end token whose checksum matches the complete output |
| FontDecode.DecompressSpec | extensions/pl_draw_ext.c:2053-2089 | a non-zero result needs the magic and zero words, equals the big-endian size at byte 8 and comes with output of that size accepted at some end token |
| FontDecode.LiteralPass | extensions/pl_draw_ext.c:2004 | a literal token of n bytes appends those bytes |
| FontDecode.EndPass | extensions/pl_draw_ext.c:2076-2081 | the end token and the checksum of the complete output stop the loop with the size |
| FontDecode.TwoPassStream | extensions/pl_draw_ext.c:2053-2089 | a good header and two passes give the size and the output |
| FontDecode.LiteralStreamInflates | extensions/pl_draw_ext.c:2053-2089 | a stream of one literal run with the right checksum decompresses to those bytes |
| FontDecode.LiteralStreamLayout | extensions/pl_draw_ext.c:2067 | where the pieces of a one-literal stream sit |
| FontDecode.Decompressor.constructor | extensions/pl_draw_ext.c:2064-2069 | the barriers are set for olen bytes and the cursor is at the start |
| FontDecode.Decompressor.Match | extensions/pl_draw_ext.c:1975-1982 | an overrunning copy only moves the cursor; a source before the output sets the cursor one past the end; otherwise len bytes are copied back |
| FontDecode.Decompressor.CopyBack | extensions/pl_draw_ext.c:1981 | len bytes, each the byte dist places before it |
| FontDecode.Decompressor.Lit | extensions/pl_draw_ext.c:1984-1991 | an overrunning copy only moves the cursor; otherwise the input bytes are appended |
| FontDecode.Decompressor.DecompressToken | extensions/pl_draw_ext.c:1997-2016 | the token at i is applied as TokenStep says |
| FontDecode.Decompressor.Pass | extensions/pl_draw_ext.c:2070-2087 | one pass of the loop does what Iteration says: it stops with Iteration's result (leaving the output in place on success) or moves on to the position and output after the token |
| FontDecode.Decompress | extensions/pl_draw_ext.c:2053-2089 | the loop with a stuck byte rejected (see Findings): the result is DecompressSpec's size, and on success the output holds the decompressed bytes |
| FontAtlas.IndividualRanges | extensions/pl_draw_ext.c:1182-1191 | one range of count 1 per individual character, in order |
| FontAtlas.ConvertIndividualChars | extensions/pl_draw_ext.c:1182-1191 | the ranges are followed by one count-1 range per character |
| FontAtlas.TotalCharsAppend | extensions/pl_draw_ext.c:1193-1196 | glyph counts of concatenated range lists add up |
| FontAtlas.IndividualCharsCount | extensions/pl_draw_ext.c:1182-1196 | each individual character adds exactly one glyph |
| FontAtlas.IndividualTotal | extensions/pl_draw_ext.c:1182-1196 | n individual characters count n glyphs |
| FontAtlas.CountChars | extensions/pl_draw_ext.c:1193-1196 | the loop sums the ranges' counts |
| FontAtlas.MaxEnd | extensions/pl_draw_ext.c:1224-1229 | maxCodePoint bounds the end of every range and is 0 or the end of one of them |
| FontAtlas.RangeOffsetsTile | extensions/pl_draw_ext.c:1224-1310 | each range's glyphs follow those of the ranges before it and lie inside the char data |
| FontAtlas.PrefixStep | extensions/pl_draw_ext.c:1224-1310 | maxCodePoint and the glyph count after one more range |
| FontAtlas.RangeLayout | extensions/pl_draw_ext.c:1224-1310 | the loop finds maxCodePoint and each range's offset into the char data |
| FontAtlas.RangedCodePointsFitTable | extensions/pl_draw_ext.c:1311 | every ranged code point indexes the table that maxCodePoint sizes |
| FontAtlas.FillRange | extensions/pl_draw_ext.c:1747-1775 | filling one range keeps the table length; its entries are given by FillTableLastOwner |
| FontAtlas.FillTable | extensions/pl_draw_ext.c:1739-1776 | filling keeps the table length; its entries are given by FillTableInRange, FillTableLastOwner and FillTableElsewhere |
| FontAtlas.FillTableInRange | extensions/pl_draw_ext.c:1773 | every ranged code point maps to an existing glyph |
| FontAtlas.FillTableLastOwner | extensions/pl_draw_ext.c:1773 | a code point maps to its glyph in the last range holding it: that range's offset plus its place in the range |
| FontAtlas.FillTableElsewhere | extensions/pl_draw_ext.c:1773 | code points outside every range keep their entry |
| FontAtlas.BuiltFontValid | extensions/pl_draw_ext.c:1311 | a table sized by maxCodePoint and filled, with one glyph per ranged code point, gives the text walk a valid font |
| FontAtlas.FillRangeInPlace | extensions/pl_draw_ext.c:1750-1775 | the writes for one range, with consecutive glyph indices |
| FontAtlas.FillCodePoints | extensions/pl_draw_ext.c:1747-1776 | the table is filled range by range and the glyph count is the total |
| FontAtlas.MaxBottom | extensions/pl_draw_ext.c:1651-1655 | the height is at least the old one, bounds every packed bottom edge and is the old height or one of them |
| FontAtlas.GrowHeight | extensions/pl_draw_ext.c:1663-1667 | one height loop computes MaxBottom |
| FontAtlas.FontsHeight | extensions/pl_draw_ext.c:1643-1657 | the height bounds every packed rectangle of every bitmap font |
| FontAtlas.AtlasHeightCovers | extensions/pl_draw_ext.c:1643-1667 | every packed rectangle lies above the bottom of the atlas |
| FontAtlas.AtlasHeightAttained | extensions/pl_draw_ext.c:1643-1667 | the height is 0 or the bottom edge of a packed rectangle |
| FontAtlas.FontsHeightAttained | extensions/pl_draw_ext.c:1643-1657 | the bitmap-font height is 0 or the bottom edge of one of their packed rectangles |
| FontAtlas.ComputeAtlasHeight | extensions/pl_draw_ext.c:1643-1667 | the two loops compute AtlasHeight |
| FontAtlas.GrowPixelBuffers | extensions/pl_draw_ext.c:1669-1682 | the pixel count becomes width·height and both buffers hold it; growing gives fresh zeroed buffers, otherwise the old ones are kept |
| FontAtlas.StrideIsProduct | extensions/pl_draw_ext.c:1728 | repeated addition is the product |
| FontAtlas.StrideAdd | extensions/pl_draw_ext.c:1728 | strides add up |
| FontAtlas.StrideMono | extensions/pl_draw_ext.c:1728 | strides grow with the row |
| FontAtlas.RowStart | extensions/pl_draw_ext.c:1728 | the first pixel of row y is y·width |
| FontAtlas.PixelIndexIsRowMajor | extensions/pl_draw_ext.c:1728 | pixel (row, col) is at row·width + col |
| FontAtlas.Splice | extensions/pl_draw_ext.c:1727-1728 | writing a run keeps the buffer length; SpliceAt gives each byte |
| FontAtlas.SpliceAt | extensions/pl_draw_ext.c:1727-1728 | inside the written run a position holds the source, elsewhere its old value |
| FontAtlas.BlitRows | extensions/pl_draw_ext.c:1725-1729 | writing rows keeps the buffer length; BlitRowsHit, BlitRowsMiss and BlitRowsBefore give each byte |
| FontAtlas.BlitRowsBefore | extensions/pl_draw_ext.c:1725-1729 | positions before the first row are kept |
| FontAtlas.BlitRowsHit | extensions/pl_draw_ext.c:1725-1729 | pixel j of row i lands at its place |
| FontAtlas.BlitRowsMiss | extensions/pl_draw_ext.c:1725-1729 | positions in no row are kept |
| FontAtlas.RectRows | extensions/pl_draw_ext.c:1725-1729 | the rows of a fitting rectangle lie inside the buffer |
| FontAtlas.BlitRect | extensions/pl_draw_ext.c:1725-1729 | the blit keeps the buffer length; BlitRectHit and BlitRectOutside give each byte |
| FontAtlas.BlitRectHit | extensions/pl_draw_ext.c:1728 | cell (i, j) of the rectangle, byte i·width + j, ends at atlas pixel (y+i, x+j) |
| FontAtlas.BlitRectOutside | extensions/pl_draw_ext.c:1725-1729 | atlas pixels outside the rectangle are kept |
| FontAtlas.CopyRow | extensions/pl_draw_ext.c:1727-1728 | one row copied in place |
| FontAtlas.CopyNextRow | extensions/pl_draw_ext.c:1725-1729 | one pass of the row loop keeps the remaining rows ready |
| FontAtlas.BlitCustomRect | extensions/pl_draw_ext.c:1724-1731 | the alpha buffer becomes BlitRect of its old contents |
| FontAtlas.BlitAll | extensions/pl_draw_ext.c:1721-1732 | blitting all rectangles keeps the buffer length; BlitAllOwner and BlitAllElsewhere give each byte |
| FontAtlas.BlitAllElsewhere | extensions/pl_draw_ext.c:1721-1732 | a pixel no rectangle covers is kept |
| FontAtlas.BlitAllOwner | extensions/pl_draw_ext.c:1721-1732 | a cell of rectangle k that no later rectangle covers holds that rectangle's byte |
| FontAtlas.BlitCustomRects | extensions/pl_draw_ext.c:1721-1732 | the loop over all custom rectangles computes BlitAll |
| FontAtlas.ExpandAlpha | extensions/pl_draw_ext.c:1781-1788 | four bytes per alpha byte; ExpandAlphaAt gives each pixel as 255, 255, 255, alpha |
| FontAtlas.ExpandAlphaAt | extensions/pl_draw_ext.c:1784-1787 | byte k is the alpha of pixel k/4 when k mod 4 = 3, else 255 |
| FontAtlas.AlphaChannel | extensions/pl_draw_ext.c:1787 | one alpha byte per RGBA pixel; AlphaRoundTrip makes it the inverse of ExpandAlpha |
| FontAtlas.AlphaRoundTrip | extensions/pl_draw_ext.c:1781-1788 | the alpha buffer is read back from the RGBA buffer unchanged |
| FontAtlas.StorePixel | extensions/pl_draw_ext.c:1784-1787 | bytes 4i .. 4i+3 become 255, 255, 255, a; nothing else changes |
| FontAtlas.ExpandAlphaToRgba | extensions/pl_draw_ext.c:1781-1788 | the first n pixels are the expansion of the first n alpha bytes; the rest is untouched |
| UiTextState.MinInt | ui/pl_ui_internal.h:547 | `pl_min` as the cursor clamp calls it: the smaller of two ints, at most both and one of them |
| UiTextState.HasSelection | ui/pl_ui_internal.h:548 | a selection exists when its two ends differ, and then at least one end is away from the cursor |
| UiTextState.Clamped | ui/pl_ui_internal.h:547 | each of cursor, selection start and end becomes its min with the length; nothing else changes |
| UiTextState.SelectionCleared | ui/pl_ui_internal.h:549 | no selection is left and the cursor is unchanged |
| UiTextState.AllSelected | ui/pl_ui_internal.h:553 | the selection spans [0, length] with the cursor at the end; a selection exists iff the length is not 0 |
| UiTextState.ClampInBoundsIsIdentity | ui/pl_ui_internal.h:547 | clamping a state already in bounds changes nothing |
| UiTextState.ClampIdempotent | ui/pl_ui_internal.h:547 | clamping twice is clamping once |
| UiTextState.ClampEstablishesBounds | ui/pl_ui_internal.h:547 | non-negative positions clamped to a length ≥ 0 lie in bounds |
| UiTextState.SelectAllInBounds | ui/pl_ui_internal.h:553 | selecting all leaves the state in bounds |
| UiTextState.UndoAvail | ui/pl_ui_internal.h:557 | the undo count is between 0 and 99 under the undo-buffer invariant |
| UiTextState.RedoAvail | ui/pl_ui_internal.h:558 | the redo count is between 0 and 99 under the invariant, and is 0 iff redo_point is 99 |
| UiTextState.UndoRedoShareBuffer | ui/pl_ui_internal.h:46 | undo and redo counts together never exceed 99, with equality iff the two points meet |
| UiTextState.InputTextState.CursorAnimReset | ui/pl_ui_internal.h:546 | the blink timer restarts at -0.30 |
| UiTextState.InputTextState.CursorClamp | ui/pl_ui_internal.h:547 | the state becomes Clamped to the wide-character length; nothing else changes |
| UiTextState.InputTextState.HasSelectionNow | ui/pl_ui_internal.h:548 | the state's own selection test, HasSelection of its stb state (no contract of its own; ClearSelection and ClearedTextHasNoSelection state what it reports) |
| UiTextState.InputTextState.ClearSelection | ui/pl_ui_internal.h:549 | no selection afterwards and the cursor is unchanged |
| UiTextState.InputTextState.CursorPosition | ui/pl_ui_internal.h:550 | the cursor lies in the text when the state is in bounds |
| UiTextState.InputTextState.SelectionStart | ui/pl_ui_internal.h:551 | the selection start lies in the text when the state is in bounds |
| UiTextState.InputTextState.SelectionEnd | ui/pl_ui_internal.h:552 | the selection end lies in the text when the state is in bounds |
| UiTextState.InputTextState.SelectAll | ui/pl_ui_internal.h:553 | the state becomes AllSelected; a selection exists iff the length is not 0 |
| UiTextState.InputTextState.ClearText | ui/pl_ui_internal.h:555 | both lengths become 0, both buffers start with a terminator, and the positions are clamped to 0 |
| UiTextState.ClearedTextHasNoSelection | ui/pl_ui_internal.h:555 | after clearing, non-negative positions are all 0 and nothing is selected |
| UiTextState.FrameHeight | ui/pl_ui_internal.h:524 | the frame is at least one font line tall iff the vertical padding is not negative, and exactly one line tall iff there is no padding |
| UiTextState.CursorPos | ui/pl_ui_internal.h:532 | at tree depth 0 the cursor is the row position plus the row's offsets; with a non-negative indent size it never lies left of that |
| UiTextState.CursorPosIndentStep | ui/pl_ui_internal.h:532 | one more tree level moves the cursor right by one indent and keeps its height |
| UiTextState.CursorPosYIgnoresIndent | ui/pl_ui_internal.h:532 | the cursor's height depends only on the row position and the row's vertical offset |
| UiTextState.ShouldRender | ui/pl_ui_internal.h:541 | a widget of non-negative height whose top lies within the window's vertical span is drawn |
| UiTextState.ShouldRenderIffOverlap | ui/pl_ui_internal.h:541 | for non-negative heights, a widget is drawn iff its vertical span meets the window's |
| UiTextState.ShouldRenderWitness | ui/pl_ui_internal.h:541 | a shared point of the two spans forces drawing |
| UiTextState.CulledWidgetMissesWindow | ui/pl_ui_internal.h:541 | every point of a culled widget's span lies above or below the window |

## Left out

- Vertex contents (positions, UVs, colours), the float-to-RGBA8 colour packing, arc points, normals and Bernstein weights: vertex buffers are tracked by size only.
- Text size and bounding-box functions (`pl__calculate_text_size*`, `pl__calculate_text_bb*`): float extents only.
- Buffer capacity growth in `pl__reserve_triangles`: stretchy-buffer reservation has no visible effect on the counts.
- 32-bit wrap-around of counters and indices: unbounded naturals are used. The one exception is the base-85 group value, which wraps modulo 2^32 explicitly.
- Floats are exact reals in clip rectangles, the text pen and the UI layout helpers. Rounding is not modelled.
- `pl_rect_clip_full` is not part of this model: it is taken to be the bound-by-bound intersection (`Geometry.Intersect`).
- Geometry.Contains: `pl_rect_contains_point` is not part of this model; it is taken to be the inclusive point-in-rectangle test.
- Draw.DrawList.RequestLayer: PL_MAX_NAME_LENGTH is set in a header that is not part of this model, so it is the parameter `maxNameLength`. A name of that length or longer is stored without a terminating 0; the model keeps only its first `maxNameLength` characters.
- Draw.DrawList.PopClipRect: requires a non-empty clip stack. `pl_sb_pop` on an empty stack underflows its size, which the model does not represent.
- DrawText.Params: requires a non-zero font size when a size is given (so do AddTextEx, AddTextClippedEx, AddText and AddTextClipped). The C division by a zero font size gives an infinite scale, and exact reals have no infinity.
- FontAtlas.BlitCustomRects: requires every custom rectangle to fit in the pixel buffer. The source writes without a check and relies on stb_rect_pack having placed the rectangles inside the atlas.
- `pl_text_char_from_utf8` is not part of this model: the text walk takes the decoder as a function parameter.
- DrawText.TextWalk: a decoder result that consumes no bytes ends the walk. The source would revisit the same byte forever.
- DrawText.TextWalk: `PL_ASSERT("Glyph not found")` is reported as a flag and the walk goes on, as in a build without assertions.
- FontDecode.Decompress: a byte that starts no token (0x00-0x03, or 0x05 not followed by 0xFA) returns 0; the source loops forever there. The as-written loop is FontDecode.IterationAsWritten, and FontDecode.Run follows the corrected loop (see Findings).
- FontDecode.Decompress: reading past the end of the compressed input is undefined in C; the model treats it as a truncated stream returning 0.
- FontDecode.Decompress: the unused `length` argument is not modelled, and the output buffer's size is taken from the header.
- FontDecode.Decompress: `pl__lit`'s guard against a source before the input cannot fire, because literal bytes follow their token.
- FontDecode.Adler32: the source's eight-bytes-at-a-time unrolling is folded into a byte loop that adds the same bytes in the same order.
- FontDecode.Decode85: only strings of whole five-character groups are modelled. A string cut inside a group makes the source read past the terminator.
- FontDecode.Decode85Digit: `char` is taken to be signed, so bytes from 0x80 decode through a negative value wrapped to uint32.
- stb_truetype and stb_rect_pack calls (font init, metrics, packing, SDF rasterization, packed quads) are foreign code: packing results and glyph metrics are inputs.
- FontAtlas.ComputeAtlasHeight: the source compares heights as floats via `pl__get_max` and casts back; exact integers are used.
- The atlas-width ladder, the white-point UV division and the glyph structs' float fields are float geometry and are not modelled.
- The per-font glyph list is not built; its length is the glyph count and the code-point table is modelled exactly.
- Freeing the SDF bytes after the blit, `pl__read_file`, the cleanup functions, the API registry and the context singleton: deallocation, file I/O and plumbing.
- `pl__text_state_free_memory` (ui/pl_ui_internal.h:556): deallocation only.
- UiTextState.CursorAnimReset: the float -0.30f is modelled as the real -0.30.
- The stb_textedit state machine is not part of this model. `UiTextState.UndoValid` states the undo-buffer invariant it is assumed to keep.
- Widget, storage and layout functions declared in ui/pl_ui_internal.h without bodies.
- The backends (Vulkan and macOS headers): GPU and platform plumbing.

## Findings

| source | as written | input that shows it | evidently intended | confidence | as-written member | corrected member |
|---|---|---|---|---|---|---|
| extensions/pl_draw_ext.c:665 | the filled rounded rectangle reserves `numTriangles` (4s+4) indices but appends 3·numTriangles | any call, e.g. segments = 0 (s = 3): 16 indices reserved, 48 appended, so the last command's element count stops covering the index buffer | reserve 3·numTriangles indices | high (not executed) | DrawModel.RoundedFillBreaksTiling | DrawModel.RoundedFillCorrectedKeepsTiling |
| extensions/pl_draw_ext.c:2074-2083 | after a byte that starts no token (0x00-0x03, or 0x05 not followed by 0xFA), the loop neither stops nor advances | a stream with a valid header whose byte 16 is 0x00 | return 0 for a byte that starts no token, as for a bad end token | high (not executed) | FontDecode.StuckTokenNeverStops | FontDecode.StuckTokenRejected |
