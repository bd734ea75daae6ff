# pytamaro graphic trees and image comparison, in Dafny

This project models two parts of pytamaro, a Python library for building pictures from shapes and operators.

**The graphic tree and its ASCII printer** (`pytamaro/graphic_tree.py`).
- A picture's construction is recorded as a tree. Operator nodes are pin, compose and rotate. Primitive nodes are rectangle, triangle, ellipse, circular sector, text and empty.
- Every node has a label `root` and two generic slots. A slot holds a sub-tree, a string leaf, or another value, such as the (negated) angle a rotation stores.
- The printer lays the tree out recursively on a `Canvas`. A canvas is a growable one-dimensional character buffer, addressed as `y * line_width + x`.
- Drawing a node puts, in this order: the left sub-tree, the `/` connectors, the label, one `\` just after the label, the right sub-tree, then the rest of the `\` run up to the right sub-tree's label. The canvas is then flushed row by row, with trailing blanks dropped.

**The image comparisons** (`pytamaro/images_compare.py`).
- A pixel-by-pixel comparison of two decoded pictures. It counts the differing pixels, fills a white/red difference mask and decides equality.
- The render size chosen for two SVG files.
- The PNG size check, and the dispatch on file extension.
- The frame-by-frame comparison of two GIF animations.

Modules and files:

- `GraphicTree` (`graphic_tree.dfy`): the node family as datatypes, the node constructors as functions, and lemmas that read the slots and the descriptors back.
- `TextCanvas` (`text_canvas.dfy`): the `Canvas` class with its line width and buffer.
  - `PutChar` and `PrintOut` are methods.
  - Each is proved against a specification function: `PutAt` for the buffer update, `Flush` for the printed text.
  - The properties of those functions are lemmas.
- `TreeLayout` (`tree_layout.dfy`): the recursive method `PrintBinaryTreeR`, which draws through the canvas's methods. Its node case is the mutually recursive method `PrintNode`.
  - The four values it returns are given in closed form: `Width`, `Height`, `LabelOffset` and `LabelEnd`.
  - The canvas it leaves is given by the function `Paint`.
  - `PrintTreeW` and `PrintTree` render a whole tree.
- `Images` (`images.dfy`): decoded pictures as grids of opaque, comparable pixels, plus the failure kinds and the exit messages.
- `PixelCompare` (`pixel_compare.dfy`): `ComparePillowImages`, a method with nested loops over an `array2` mask. It is proved against the mismatch count `Mismatches` and the verdict `Verdict`.
- `ImageFiles` (`image_files.dfy`): the SVG size decision, the two readers, the dispatch, and the `CompareImages` method. Parsing and decoding are the function fields of a `Decoders` value.
- `AnimationCompare` (`animation_compare.dfy`): `CompareAnimation`, a method with three nested loops. It is proved against `DivergentFrames`, the increasing list of differing frames, and the verdict `AnimationVerdict`.

Errors are results, not crashes:
- each `sys.exit(message)` is `Err(Exit(message))`;
- a missing dictionary key is `KeyError`;
- a failed `int()` conversion is `ValueError`;
- indexing past an array is `IndexError`;
- division by zero is `ZeroDivisionError`, or `DivisionByZero` for the printer.

Number formatting in the node descriptors (Python's `str` of a float) is the uninterpreted parameter `show`.

Two behaviours of the code that a reader might not expect are modelled as written:

- For the SVG size, the test at `pytamaro/images_compare.py:96-97` reads `'width' and 'height' in attribs`, which Python evaluates as `'height' in attribs`. So only `height` is tested, and a missing `width` then raises a `KeyError` at line 98. `SvgRenderSize` models exactly that.
- The animation scan indexes `arr[j][k]` with `j < width` and `k < height` (`pytamaro/images_compare.py:189-191`). Frames are `height` rows of `width` pixels. So an animation whose frames are neither square nor empty raises an `IndexError` in its first frame, and the model returns that error.

## Model

| member | source | states |
|---|---|---|
| GraphicTree.PinNode | pytamaro/graphic_tree.py:22-28 | the node's typed fields are the point and the graphic and it is mirrored, so it is labelled "pin" with the point in its left slot and the graphic in its right slot; it is well formed whenever the graphic is |
| GraphicTree.ComposeNode | pytamaro/graphic_tree.py:31-37 | the node's typed fields are the two graphics and it is mirrored, so it is labelled "compose" with the foreground left and the background right; it is well formed whenever both are |
| GraphicTree.RotateNode | pytamaro/graphic_tree.py:40-46 | the node's typed fields are the negated angle and the graphic and it is mirrored; it is well formed whenever the rotated graphic is |
| GraphicTree.RotateStoresNegation | pytamaro/graphic_tree.py:40-46 | a rotation by `a` stores `-a` both as its angle field and in its left slot, keeps the graphic in its right slot, and is labelled "rotate" |
| GraphicTree.OperatorSlots | pytamaro/graphic_tree.py:17-46 | an operator's sub-graphics are exactly the sub-trees in its slots, and rebuilding a rotation from the negation of its left slot gives the same node |
| GraphicTree.PrimitiveSlots | pytamaro/graphic_tree.py:49-118 | a mirrored primitive carries its shape's label, its descriptor in the left slot and its colour in the right slot; the empty node's slots are "000" and "none" |
| GraphicTree.RectangleNode | pytamaro/graphic_tree.py:57-65 | the node's shape is a rectangle of the given width, height and colour, its descriptor is "w:"+W+",h:"+H, and it is well formed, so it is labelled "rectangle" with the descriptor left and the colour right |
| GraphicTree.TriangleNode | pytamaro/graphic_tree.py:68-77 | the node's shape is a triangle of the given sides, angle and colour, its descriptor is "s1:…,s2:…,a:…", and it is well formed, so it is labelled "triangle" with the descriptor left and the colour right |
| GraphicTree.EllipseNode | pytamaro/graphic_tree.py:80-88 | the node's shape is an ellipse of the given width, height and colour, its descriptor is "w:"+W+",h:"+H, and it is well formed, so it is labelled "ellipse" with the descriptor left and the colour right |
| GraphicTree.CircularSectorNode | pytamaro/graphic_tree.py:91-99 | the node's shape is a circular sector of the given radius, angle and colour, its descriptor is "r:…,a:…", and it is well formed, so it is labelled "circularSector" with the descriptor left and the colour right |
| GraphicTree.TextNode | pytamaro/graphic_tree.py:102-111 | the node's shape is a text of the given content, font and colour, its descriptor is "c:…,f:…,p:…", and it is well formed, so it is labelled "text" with the descriptor left and the colour right |
| GraphicTree.EmptyNode | pytamaro/graphic_tree.py:114-118 | the node's shape is the empty shape and it is well formed, so it is labelled "empty", has data and colour " ", and slots "000" and "none" |
| GraphicTree.SplitJoin | pytamaro/graphic_tree.py:62 | splitting comma-joined fields at the comma gives the fields back when none holds a comma |
| GraphicTree.RectangleDescriptor | pytamaro/graphic_tree.py:62-63 | when the formatted numbers hold no comma, a rectangle's descriptor splits into exactly the two fields "w:"+W and "h:"+H |
| GraphicTree.EllipseDescriptor | pytamaro/graphic_tree.py:85-86 | when the formatted numbers hold no comma, an ellipse's descriptor splits into exactly the two fields "w:"+W and "h:"+H |
| GraphicTree.TriangleDescriptor | pytamaro/graphic_tree.py:74-75 | when the formatted numbers hold no comma, a triangle's descriptor splits into exactly the fields "s1:…", "s2:…", "a:…" |
| GraphicTree.CircularSectorDescriptor | pytamaro/graphic_tree.py:96-97 | when the formatted numbers hold no comma, a circular sector's descriptor splits into exactly the fields "r:…", "a:…" |
| GraphicTree.TextDescriptor | pytamaro/graphic_tree.py:108-109 | when the content, the font and the formatted point size hold no comma, a text node's descriptor splits into exactly the fields "c:"+content, "f:"+font, "p:"+points |
| TextCanvas.Canvas.constructor | pytamaro/graphic_tree.py:122-124 | a new canvas has the given line width and an empty buffer |
| TextCanvas.Canvas.PutChar | pytamaro/graphic_tree.py:126-134 | the new buffer is `PutAt` of the old one |
| TextCanvas.RowStartIsProduct | pytamaro/graphic_tree.py:128 | row `y` starts at cell `y * line_width` |
| TextCanvas.PutAtEffect | pytamaro/graphic_tree.py:126-134 | a column at or past the line width leaves the buffer unchanged; otherwise cell `pos = y*w+x` holds `c`, the length becomes `max(old length, pos+1)`, and every other cell reads as before, the new padding cells as blanks |
| TextCanvas.PlaceGrows | pytamaro/graphic_tree.py:132-134 | writing past the end appends `pos - length` blanks and then the character |
| TextCanvas.TrimRightShape | pytamaro/graphic_tree.py:139-149 | a row without its trailing blanks is a prefix of the row, does not end in a blank, and only blanks were dropped |
| TextCanvas.Canvas.PrintOut | pytamaro/graphic_tree.py:136-151 | a zero line width divides by zero; otherwise the text written is `Flush` of the buffer in rows of the width's absolute value |
| TextCanvas.ScannedRows | pytamaro/graphic_tree.py:137-149 | after the loop has read `i` cells it has written the complete rows flushed and the current row up to its last non-blank, and holds back exactly that row's trailing blanks |
| TextCanvas.ScannedIsFlush | pytamaro/graphic_tree.py:150-151 | the closing line break, added only when the length is not a multiple of the width, completes the flushed text |
| TextCanvas.RowBoundary | pytamaro/graphic_tree.py:147 | for a non-zero width, inside a row `i % line_width == 0` holds exactly at the row's end, for negative widths too |
| TextCanvas.TrimStep | pytamaro/graphic_tree.py:140-145 | a non-blank releases the held-back blanks before itself; a blank is held back |
| TextCanvas.CloseRow | pytamaro/graphic_tree.py:147-149 | the line break at a row's end turns the trimmed partial row into a flushed row |
| TextCanvas.FlushAppend | pytamaro/graphic_tree.py:136-151 | for a positive width, flushing a buffer split at a row boundary is flushing each part |
| TextCanvas.FlushLines | pytamaro/graphic_tree.py:136-151 | for a buffer without line breaks of its own: an empty buffer prints nothing; otherwise the text ends in a line break and no line break follows a blank |
| TextCanvas.FlushFirstLine | pytamaro/graphic_tree.py:136-151 | for a non-empty buffer, the text starts with the first row without its trailing blanks, then a line break |
| TextCanvas.TrimRightBlanks | pytamaro/graphic_tree.py:139-149 | blanks appended after the last character of a row do not change what is printed |
| TreeLayout.LabelWithin | pytamaro/graphic_tree.py:154-183 | a label lies inside its drawing; a node's label has a connector column on each side, so its cursor advances by at least the label plus 2; a leaf's label starts at its column |
| TreeLayout.PrintBinaryTreeR | pytamaro/graphic_tree.py:154-183 | the canvas becomes `Paint` of the old one; the returned cursor is `x + Width`, the depth is `y + 2*Height`, the label span is `[x + LabelOffset, LabelEnd)` |
| TreeLayout.PrintNode | pytamaro/graphic_tree.py:156-181 | for a node, the same four results and canvas, drawn in the source's order: left sub-tree, `/` run, label, one `\`, right sub-tree, rest of the `\` run; the depth is the larger of the two sub-trees' |
| TreeLayout.NodeLayout | pytamaro/graphic_tree.py:156-181 | a node's canvas, cursor, depth and label span follow from its two recursive calls and its drawing steps |
| TreeLayout.DrawRun | pytamaro/graphic_tree.py:159-160 | a run of `put_char` calls on one row is `PutRun` |
| TreeLayout.DrawText | pytamaro/graphic_tree.py:164-170 | writing a string character by character is `PutText` |
| TreeLayout.PutRunEffect | pytamaro/graphic_tree.py:159-160 | the run's cells inside the line width hold the character and every other cell is unchanged |
| TreeLayout.PutTextEffect | pytamaro/graphic_tree.py:164-170 | the text's cells inside the line width hold its characters in order and every other cell is unchanged |
| TreeLayout.PaintFrame | pytamaro/graphic_tree.py:154-183 | for a positive line width, drawing never shrinks the buffer and never changes a row above the one it starts on |
| TreeLayout.PaintNode | pytamaro/graphic_tree.py:156-181 | for a positive line width, on a node's own two rows the label, the `/` run and the `\` run are drawn at the cells inside the line width, and every other cell is as before |
| TreeLayout.PaintLabel | pytamaro/graphic_tree.py:162-171 | for a positive line width, every column of the label inside the line width holds the label's character on row `y` |
| TreeLayout.PaintConnectors | pytamaro/graphic_tree.py:157-180 | for a positive line width, row `y+1` holds, at the columns inside the line width, `/` from the left child's label end to the label, and `\` from the label end (included) to the right child's label |
| TreeLayout.PaintNoColumns | pytamaro/graphic_tree.py:126-127 | with no columns nothing is drawn |
| TreeLayout.PrintTreeW | pytamaro/graphic_tree.py:190-193 | the output is the tree painted from (0, 0) on an empty canvas and flushed, or a division by zero for width 0 |
| TreeLayout.PrintTree | pytamaro/graphic_tree.py:186-187 | the output is the rendering at width 30000 |
| TreeLayout.FirstRowCells | pytamaro/graphic_tree.py:154-171 | when the node's label is non-empty and fits in the width, a node drawn at (0, 0) on an empty canvas reaches past its label, and row 0 holds its label from `LabelOffset` on and blanks elsewhere |
| TreeLayout.RenderFirstLine | pytamaro/graphic_tree.py:190-193 | when a node's label is non-empty and fits in the width, the printed text starts with the label indented by `LabelOffset` blanks, then a line break |
| PixelCompare.ComparePillowImages | pytamaro/images_compare.py:21-58 | the result is `Verdict`; when the pixels were scanned, the count is the number of differing positions and each mask cell is white where the pixels agree and red where they differ |
| PixelCompare.MismatchesZero | pytamaro/images_compare.py:44-50 | the count is zero exactly when every scanned position agrees |
| PixelCompare.MismatchesBound | pytamaro/images_compare.py:44-50 | the count is at most `width * height` |
| PixelCompare.MismatchesSymmetric | pytamaro/images_compare.py:44-50 | the count does not depend on the order of the pictures |
| PixelCompare.SizeDecidesFirst | pytamaro/images_compare.py:33-40 | once both pictures have rows, pictures of different sizes stop with "Different images size" whatever their pixels; a picture with no rows raises `IndexError` before the size test |
| PixelCompare.VerdictSame | pytamaro/images_compare.py:33-58 | pictures are reported the same exactly when both have rows, they have the same non-zero size, and every pixel agrees |
| PixelCompare.VerdictReflexive | tests/test_images_compare.py:21 | a picture with rows and columns is the same as itself |
| PixelCompare.VerdictSymmetric | pytamaro/images_compare.py:33-58 | the verdict does not depend on which picture is the reference |
| PixelCompare.DifferenceRatioBounds | pytamaro/images_compare.py:51-52 | for pictures of one size with a non-zero number of cells, the error ratio lies in [0, 1] and is zero exactly when every pixel agrees |
| ImageFiles.ParseInt | pytamaro/images_compare.py:101 | the conversion succeeds exactly on an optionally signed string of decimal digits |
| ImageFiles.ParseIntOfString | pytamaro/images_compare.py:101 | every integer written in decimal converts back to itself |
| ImageFiles.SvgRenderSize | pytamaro/images_compare.py:93-106 | a reference without `height` gives 500×500 whatever the candidate declares; a reference with it and a candidate without it stop with "the given svg image does not have the size"; "different size" exactly when both widths and heights are present and the strings differ; a missing `width` with both heights present is `KeyError("width")`; equal strings that are not integer literals are `ValueError`, width first; on success, the strings are equal and the size is the reference's converted values |
| ImageFiles.SvgDeclaredSize | pytamaro/images_compare.py:96-101 | equal decimal width and height strings give exactly that size |
| ImageFiles.SvgSelfSize | pytamaro/images_compare.py:96-103 | an SVG compared with itself never stops on a size mismatch, only on a missing width or a non-decimal size |
| ImageFiles.ReadSvg | pytamaro/images_compare.py:78-114 | it fails exactly when the size decision does, with that decision's failure, and otherwise returns both files rasterised at the decided size, reference first |
| ImageFiles.ReadPng | pytamaro/images_compare.py:117-130 | it succeeds exactly when the sizes agree, returning both pictures in order, and otherwise stops with "different size" |
| ImageFiles.ReadImages | pytamaro/images_compare.py:144-149 | two `.svg` files go to the SVG reader, otherwise two `.png` files to the PNG reader, otherwise it stops with "Images files are not supported" |
| ImageFiles.CompareImages | pytamaro/images_compare.py:133-153 | the result is the reader's failure or the pixel verdict on what it returns |
| ImageFiles.SvgSwapHarmless | pytamaro/images_compare.py:114 | for two `.svg` files whose size decision succeeds, the swapped order of the pictures gives the verdict of comparing the candidate with the reference |
| ImageFiles.ImagesSame | pytamaro/images_compare.py:133-153 | two files are the same exactly when the reader succeeds and its pictures have the same non-zero size and the same pixels |
| ImageFiles.PngSelfSame | pytamaro/images_compare.py:125-151 | a PNG with rows and columns is the same as itself |
| ImageFiles.SvgSelfSame | pytamaro/images_compare.py:96-151 | an SVG whose size decision succeeds and whose rasterisation is not empty is the same as itself |
| AnimationCompare.CompareAnimation | pytamaro/images_compare.py:156-200 | the result is `AnimationVerdict`, with the extension, frame-count and frame-size checks in that order; when it succeeds, the collected list is `DivergentFrames` |
| AnimationCompare.SeenStep | pytamaro/images_compare.py:189-193 | scanning one more position adds exactly that position's difference |
| AnimationCompare.SeenNextRow | pytamaro/images_compare.py:189-190 | a finished scan row is the start of the next |
| AnimationCompare.ScanCoversFrame | pytamaro/images_compare.py:189-191 | for two frames of the declared size, a scan that does not overrun sees a difference exactly when the frames differ somewhere |
| AnimationCompare.DivergentBelow | pytamaro/images_compare.py:182-193 | every collected index is below the number of frames scanned, so `result[-1] != i` holds until frame `i` is collected |
| AnimationCompare.DivergentIncreasing | pytamaro/images_compare.py:178-193 | the collected indices are strictly increasing |
| AnimationCompare.DivergentMembers | pytamaro/images_compare.py:182-193 | an index is collected exactly when that frame differs |
| AnimationCompare.SameFrames | pytamaro/images_compare.py:191 | frames of one shape differ nowhere exactly when they are equal |
| AnimationCompare.AnimationSame | pytamaro/images_compare.py:167-200 | two files are the same exactly when both are GIF files, the scan does not overrun, and the animations have the same size and the same frames |
| AnimationCompare.AnimationSelfSame | pytamaro/images_compare.py:167-200 | a GIF whose frames are square or empty is the same as itself |

## Left out

- File reading and decoding are not modelled: `validate_file_contents`, `ET.parse`, `PILImageMod.open`, `cairosvg.svg2png`, `np.array` and `gif.seek`. They are parameters: the `Decoders` value for still images and the `open` function for animations.
- Decoded pictures and animations are taken to have their declared size, by the subset types `Image` and `Animation`. A pixel is an opaque value compared with `==`, which stands for numpy's channel-wise `(a == b).all()`.
- ImageFiles.Decoders: the picture `rasterise` returns is not tied to the width and height it is asked for, although `cairosvg.svg2png` renders at that size. So `ImageFiles.SvgSelfSame` assumes that the rasterisation is not empty instead of deriving this from the decided size.
- `compare_graphic` (`pytamaro/images_compare.py:61-75`) is not part of this model: it depends on the rasteriser `graphic_to_pillow_image`, which is not part of this model.
- Printing is not modelled: the percentage message, `show()` of the mask, the printed frame list and the "same" messages. `PrintOut` returns the text that `sys.stdout.write` would write.
- ComparePillowImages: the error ratio is exact rational division, not floating point; only its comparison with zero is used.
- ComparePillowImages: on an early failure the returned mask is an empty placeholder, because the Python function makes no mask before those checks.
- GraphicTree.RectangleNode, GraphicTree.TriangleNode, GraphicTree.EllipseNode, GraphicTree.CircularSectorNode, GraphicTree.TextNode: formatting a float is the uninterpreted parameter `show`, so the descriptor fields are stated in terms of `show`. The text node's `points` is not stored, because the class only annotates it (`pytamaro/graphic_tree.py:106`).
- ImageFiles.ParseInt: Python's `int()` also accepts surrounding whitespace, underscores between digits and non-ASCII digits. The model accepts only an optional sign followed by ASCII digits, and rejects the other forms as `ValueError`.
- TextCanvas.Canvas.PrintOut: with a zero line width it returns `DivisionByZero` without scanning. The source would raise at the first `%` after writing at most one cell. With non-negative columns, no cell is ever written at width 0, so the buffer is empty there and the final `%` raises before anything is written.
- TextCanvas.Canvas.PutChar: coordinates are natural numbers, because the printer only uses non-negative ones. In the source a negative column gives `pos = y * line_width + x`. While `pos` is non-negative it addresses a cell of an earlier row. A negative `pos` makes `self.canvas[pos] = c` (`pytamaro/graphic_tree.py:130-131`) write a cell counted from the end of the buffer, or raise `IndexError` when the buffer is shorter than `-pos`.
- The canvas holds characters only. The source's list could hold any value passed to `put_char`.
