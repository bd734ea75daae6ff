/** The ASCII tree printer: a recursive layout that draws a slot's left
    sub-tree, then `/` connectors, then the label, then one `\`, then the right
    sub-tree, then the rest of the `\` connectors, into a Canvas; the canvas is
    then flushed as text.

    The four values a layout call returns do not depend on the canvas: they
    are given in closed form by `Width`, `Height` and `LabelOffset`. `Paint`
    gives the canvas a call leaves. The method PrintBinaryTreeR is proved to
    produce both. */
module TreeLayout {
  import opened GraphicTree
  import opened TextCanvas

  /** The text drawn for a slot itself: a node's label, a string leaf's
      characters, nothing for any other value. */
  function Label(t: Slot): string
  {
    match t
    case SubTree(n) => n.root
    case StrLeaf(s) => s
    case OtherLeaf(_) => ""
  }

  function Max(a: nat, b: nat): nat
  {
    if a < b then b else a
  }

  /** The number of columns a slot's drawing takes: the left sub-tree, one
      connector column, the label, one connector column, the right sub-tree. */
  function Width(t: Slot): nat
    decreases t
  {
    match t
    case SubTree(n) => Width(n.leftNode) + 1 + |n.root| + 1 + Width(n.rightNode)
    case StrLeaf(s) => |s|
    case OtherLeaf(_) => 0
  }

  /** The number of node levels in a slot; each level takes two rows. */
  function Height(t: Slot): nat
    decreases t
  {
    match t
    case SubTree(n) => 1 + Max(Height(n.leftNode), Height(n.rightNode))
    case StrLeaf(_) => 0
    case OtherLeaf(_) => 0
  }

  /** The column of a slot's label relative to the column its drawing starts at. */
  function LabelOffset(t: Slot): nat
  {
    if t.SubTree? then Width(t.tree.leftNode) + 1 else 0
  }

  /** The column just past a slot's label when its drawing starts at `x`. */
  function LabelEnd(t: Slot, x: nat): nat
  {
    x + LabelOffset(t) + |Label(t)|
  }

  /** A label lies inside its drawing; a node's label has at least one
      connector column on each side of it. */
  lemma LabelWithin(t: Slot)
    ensures LabelOffset(t) + |Label(t)| <= Width(t)
    ensures t.SubTree? ==> 0 < LabelOffset(t) && LabelOffset(t) + |Label(t)| < Width(t)
    ensures !t.SubTree? ==> LabelOffset(t) == 0 && Width(t) == |Label(t)|
  {
  }

  // ---------------------------------------------------------------------------
  // The canvas a layout leaves.

  /** Writes `ch` at columns a .. b-1 of row `row`, in that order. */
  function PutRun(cv: seq<char>, lw: int, a: nat, b: nat, row: nat, ch: char): seq<char>
    decreases b
  {
    if b <= a then cv else PutAt(PutRun(cv, lw, a, b - 1, row, ch), lw, b - 1, row, ch)
  }

  /** Writes the characters of `s` at row `row` from column `x` on. */
  function PutText(cv: seq<char>, lw: int, x: nat, row: nat, s: string): seq<char>
    decreases |s|
  {
    if s == [] then cv
    else PutAt(PutText(cv, lw, x, row, s[..|s| - 1]), lw, x + |s| - 1, row, s[|s| - 1])
  }

  /** The canvas after a layout call at column `x`, row `y`. */
  function Paint(t: Slot, x: nat, y: nat, lw: int, cv: seq<char>): seq<char>
    decreases t
  {
    match t
    case SubTree(n) =>
      var labelStart := x + Width(n.leftNode) + 1;
      var labelEnd := labelStart + |n.root|;
      var c1 := Paint(n.leftNode, x, y + 2, lw, cv);
      var c2 := PutRun(c1, lw, LabelEnd(n.leftNode, x), labelStart, y + 1, '/');
      var c3 := PutText(c2, lw, labelStart, y, n.root);
      var c4 := PutAt(c3, lw, labelEnd, y + 1, '\\');
      var c5 := Paint(n.rightNode, labelEnd + 1, y + 2, lw, c4);
      PutRun(c5, lw, labelEnd + 1, labelEnd + 1 + LabelOffset(n.rightNode), y + 1, '\\')
    case StrLeaf(s) => PutText(cv, lw, x, y, s)
    case OtherLeaf(_) => cv
  }

  /** Index `p` is at row `row`, in a column from `a` up to (not including) `b`
      that is short of the line width. */
  predicate InSpan(p: nat, lw: int, row: nat, a: nat, b: nat)
  {
    RowStart(row, lw) + a <= p < RowStart(row, lw) + b && p < RowStart(row, lw) + lw
  }

  /** Index `p` is one of the cells that writing `s` at column `x` of row `row` reaches. */
  predicate InText(p: nat, lw: int, row: nat, x: nat, s: string)
  {
    InSpan(p, lw, row, x, x + |s|)
  }

  lemma RowOrder(y: nat, lw: int)
    ensures RowStart(y + 1, lw) == RowStart(y, lw) + lw
    ensures RowStart(y + 2, lw) == RowStart(y, lw) + 2 * lw
  {
  }

  /** A run changes exactly its cells short of the line width, to `ch`. */
  lemma {:induction false} PutRunEffect(cv: seq<char>, lw: int, a: nat, b: nat, row: nat, ch: char)
    ensures var r := PutRun(cv, lw, a, b, row, ch);
            && |r| >= |cv|
            && (forall p: nat :: InSpan(p, lw, row, a, b) ==> p < |r|)
            && forall p: nat :: Pad(r, p) == if InSpan(p, lw, row, a, b) then ch else Pad(cv, p)
    decreases b
  {
    if b > a {
      PutRunEffect(cv, lw, a, b - 1, row, ch);
      var r' := PutRun(cv, lw, a, b - 1, row, ch);
      PutAtEffect(r', lw, b - 1, row, ch);
      if b - 1 < lw {
        assert forall p: nat :: InSpan(p, lw, row, a, b) <==>
                                InSpan(p, lw, row, a, b - 1) || p == RowStart(row, lw) + b - 1;
      } else {
        assert forall p: nat :: InSpan(p, lw, row, a, b) <==> InSpan(p, lw, row, a, b - 1);
      }
    }
  }

  /** Writing a text changes exactly its cells short of the line width, to its characters. */
  lemma {:induction false} PutTextEffect(cv: seq<char>, lw: int, x: nat, row: nat, s: string)
    ensures var r := PutText(cv, lw, x, row, s);
            && |r| >= |cv|
            && (forall p: nat :: InText(p, lw, row, x, s) ==> p < |r|)
            && forall p: nat :: Pad(r, p)
                                == if InText(p, lw, row, x, s) then s[p - RowStart(row, lw) - x]
                                   else Pad(cv, p)
    decreases |s|
  {
    if s != [] {
      var s' := s[..|s| - 1];
      PutTextEffect(cv, lw, x, row, s');
      PutAtEffect(PutText(cv, lw, x, row, s'), lw, x + |s| - 1, row, s[|s| - 1]);
      var last := RowStart(row, lw) + x + |s| - 1;
      if x + |s| - 1 < lw {
        assert forall p: nat :: InText(p, lw, row, x, s) <==> InText(p, lw, row, x, s') || p == last;
      } else {
        assert forall p: nat :: InText(p, lw, row, x, s) <==> InText(p, lw, row, x, s');
      }
      assert forall p: nat :: InText(p, lw, row, x, s') ==>
                                s'[p - RowStart(row, lw) - x] == s[p - RowStart(row, lw) - x];
    }
  }

  lemma {:induction false} PutRunNoColumns(cv: seq<char>, lw: int, a: nat, b: nat, row: nat, ch: char)
    requires lw <= 0
    ensures PutRun(cv, lw, a, b, row, ch) == cv
    decreases b
  {
    if b > a {
      PutRunNoColumns(cv, lw, a, b - 1, row, ch);
    }
  }

  lemma {:induction false} PutTextNoColumns(cv: seq<char>, lw: int, x: nat, row: nat, s: string)
    requires lw <= 0
    ensures PutText(cv, lw, x, row, s) == cv
    decreases |s|
  {
    if s != [] {
      PutTextNoColumns(cv, lw, x, row, s[..|s| - 1]);
    }
  }

  /** What a node draws on its own two rows, given the column where the left
      sub-tree's label ends, where its own label starts, and where the right
      sub-tree's label starts: the label on row y, `/` from the left label's
      end up to the label, `\` from the label's end up to the right label. */
  function NodeCell(cv: seq<char>, lw: int, y: nat, root: string,
                    leftEnd: nat, labelStart: nat, rightStart: nat, p: nat): char
  {
    if InText(p, lw, y, labelStart, root) then root[p - RowStart(y, lw) - labelStart]
    else if InSpan(p, lw, y + 1, leftEnd, labelStart) then '/'
    else if InSpan(p, lw, y + 1, labelStart + |root|, rightStart) then '\\'
    else Pad(cv, p)
  }

  /** The cells a node draws on its own two rows. */
  predicate NodeDrawn(lw: int, y: nat, root: string, leftEnd: nat, labelStart: nat, rightStart: nat, p: nat)
  {
    || InText(p, lw, y, labelStart, root)
    || InSpan(p, lw, y + 1, leftEnd, labelStart)
    || InSpan(p, lw, y + 1, labelStart + |root|, rightStart)
  }

  /** The drawing steps of a node, with the sub-trees' drawings known only to
      stay below row y+1 and not to shorten the canvas, leave rows y and y+1
      as NodeCell describes. */
  lemma {:induction false} NodeRows(root: string, y: nat, lw: nat,
                                    leftEnd: nat, labelStart: nat, rightStart: nat,
                                    c0: seq<char>, c1: seq<char>, c2: seq<char>, c3: seq<char>,
                                    c4: seq<char>, c5: seq<char>, c6: seq<char>)
    requires lw > 0 && leftEnd <= labelStart && labelStart + |root| < rightStart
    requires |c1| >= |c0| && forall p: nat :: p < RowStart(y + 2, lw) ==> Pad(c1, p) == Pad(c0, p)
    requires c2 == PutRun(c1, lw, leftEnd, labelStart, y + 1, '/')
    requires c3 == PutText(c2, lw, labelStart, y, root)
    requires c4 == PutAt(c3, lw, labelStart + |root|, y + 1, '\\')
    requires |c5| >= |c4| && forall p: nat :: p < RowStart(y + 2, lw) ==> Pad(c5, p) == Pad(c4, p)
    requires c6 == PutRun(c5, lw, labelStart + |root| + 1, rightStart, y + 1, '\\')
    ensures |c6| >= |c0|
    ensures forall p: nat :: p < RowStart(y + 2, lw) ==>
              Pad(c6, p) == NodeCell(c0, lw, y, root, leftEnd, labelStart, rightStart, p)
    ensures forall p: nat :: NodeDrawn(lw, y, root, leftEnd, labelStart, rightStart, p) ==> p < |c6|
  {
    RowOrder(y, lw);
    var labelEnd := labelStart + |root|;
    PutRunEffect(c1, lw, leftEnd, labelStart, y + 1, '/');
    PutTextEffect(c2, lw, labelStart, y, root);
    PutAtEffect(c3, lw, labelEnd, y + 1, '\\');
    PutRunEffect(c5, lw, labelEnd + 1, rightStart, y + 1, '\\');
    forall p: nat | p < RowStart(y + 2, lw)
      ensures Pad(c6, p) == NodeCell(c0, lw, y, root, leftEnd, labelStart, rightStart, p)
    {
      var bs := RowStart(y + 1, lw) + labelEnd;
      if labelEnd < lw && p == bs {
        assert Pad(c6, p) == Pad(c5, p) == Pad(c4, p) == '\\';
      } else {
        assert Pad(c4, p) == Pad(c3, p);
        if InSpan(p, lw, y + 1, labelEnd + 1, rightStart) {
          assert Pad(c6, p) == '\\';
        } else {
          assert Pad(c6, p) == Pad(c3, p);
          if InText(p, lw, y, labelStart, root) {
            assert Pad(c3, p) == root[p - RowStart(y, lw) - labelStart];
          } else {
            assert Pad(c3, p) == Pad(c2, p);
            if InSpan(p, lw, y + 1, leftEnd, labelStart) {
              assert Pad(c2, p) == '/';
            } else {
              assert Pad(c2, p) == Pad(c0, p);
            }
          }
        }
      }
    }
    forall p: nat | NodeDrawn(lw, y, root, leftEnd, labelStart, rightStart, p)
      ensures p < |c6|
    {
      if labelEnd < lw && p == RowStart(y + 1, lw) + labelEnd {
      } else if InSpan(p, lw, y + 1, labelEnd + 1, rightStart) {
      }
    }
  }

  /** A layout at row `y` never shortens the canvas and leaves every cell
      above row `y` as it was. */
  lemma {:induction false} PaintFrame(t: Slot, x: nat, y: nat, lw: nat, cv: seq<char>)
    requires lw > 0
    ensures |Paint(t, x, y, lw, cv)| >= |cv|
    ensures forall p: nat :: p < RowStart(y, lw) ==> Pad(Paint(t, x, y, lw, cv), p) == Pad(cv, p)
    decreases t, 1
  {
    match t
    case SubTree(n) =>
      PaintNode(n, x, y, lw, cv);
      RowOrder(y, lw);
      var out := Paint(t, x, y, lw, cv);
      var labelStart := x + LabelOffset(t);
      var rightStart := labelStart + |n.root| + 1 + LabelOffset(n.rightNode);
      forall p: nat | p < RowStart(y, lw)
        ensures Pad(out, p) == Pad(cv, p)
      {
        assert Pad(out, p) == NodeCell(cv, lw, y, n.root, LabelEnd(n.leftNode, x), labelStart, rightStart, p);
      }
    case StrLeaf(s) =>
      PutTextEffect(cv, lw, x, y, s);
      forall p: nat | p < RowStart(y, lw)
        ensures Pad(PutText(cv, lw, x, y, s), p) == Pad(cv, p)
      {
        assert !InText(p, lw, y, x, s);
      }
    case OtherLeaf(_) =>
  }

  /** The two rows a node at column `x`, row `y` draws itself on. */
  lemma {:induction false} PaintNode(n: GraphicTree, x: nat, y: nat, lw: nat, cv: seq<char>)
    requires lw > 0
    ensures var out := Paint(SubTree(n), x, y, lw, cv);
            var labelStart := x + LabelOffset(SubTree(n));
            var rightStart := labelStart + |n.root| + 1 + LabelOffset(n.rightNode);
            && |out| >= |cv|
            && (forall p: nat :: p < RowStart(y + 2, lw) ==>
                  Pad(out, p) == NodeCell(cv, lw, y, n.root, LabelEnd(n.leftNode, x), labelStart, rightStart, p))
            && (forall p: nat ::
                  NodeDrawn(lw, y, n.root, LabelEnd(n.leftNode, x), labelStart, rightStart, p) ==> p < |out|)
    decreases SubTree(n), 0
  {
    var labelStart := x + Width(n.leftNode) + 1;
    var labelEnd := labelStart + |n.root|;
    LabelWithin(n.leftNode);
    var c1 := Paint(n.leftNode, x, y + 2, lw, cv);
    PaintFrame(n.leftNode, x, y + 2, lw, cv);
    var c2 := PutRun(c1, lw, LabelEnd(n.leftNode, x), labelStart, y + 1, '/');
    var c3 := PutText(c2, lw, labelStart, y, n.root);
    var c4 := PutAt(c3, lw, labelEnd, y + 1, '\\');
    var c5 := Paint(n.rightNode, labelEnd + 1, y + 2, lw, c4);
    PaintFrame(n.rightNode, labelEnd + 1, y + 2, lw, c4);
    var rightStart := labelEnd + 1 + LabelOffset(n.rightNode);
    var c6 := PutRun(c5, lw, labelEnd + 1, rightStart, y + 1, '\\');
    NodeRows(n.root, y, lw, LabelEnd(n.leftNode, x), labelStart, rightStart,
             cv, c1, c2, c3, c4, c5, c6);
    PaintSteps(n, x, y, lw, LabelEnd(n.leftNode, x), labelStart, labelEnd, rightStart,
               cv, c1, c2, c3, c4, c5, c6);
  }

  /** On a canvas with no usable column nothing is ever drawn. */
  lemma {:induction false} PaintNoColumns(t: Slot, x: nat, y: nat, lw: int, cv: seq<char>)
    requires lw <= 0
    ensures Paint(t, x, y, lw, cv) == cv
    decreases t
  {
    match t
    case SubTree(n) =>
      var labelStart := x + Width(n.leftNode) + 1;
      var labelEnd := labelStart + |n.root|;
      PaintNoColumns(n.leftNode, x, y + 2, lw, cv);
      PutRunNoColumns(cv, lw, LabelEnd(n.leftNode, x), labelStart, y + 1, '/');
      PutTextNoColumns(cv, lw, labelStart, y, n.root);
      PaintNoColumns(n.rightNode, labelEnd + 1, y + 2, lw, cv);
      PutRunNoColumns(cv, lw, labelEnd + 1, labelEnd + 1 + LabelOffset(n.rightNode), y + 1, '\\');
    case StrLeaf(s) =>
      PutTextNoColumns(cv, lw, x, y, s);
    case OtherLeaf(_) =>
  }

  /** The label of a layout sits on its row `y` from its start column,
      wherever that is short of the line width. */
  lemma {:induction false} PaintLabel(t: Slot, x: nat, y: nat, lw: nat, cv: seq<char>)
    requires lw > 0
    ensures var out := Paint(t, x, y, lw, cv);
            var start := x + LabelOffset(t);
            forall col :: start <= col < start + |Label(t)| && col < lw ==>
              Reaches(out, lw, col, y) && At(out, lw, col, y) == Label(t)[col - start]
  {
    match t
    case SubTree(n) =>
      PaintNode(n, x, y, lw, cv);
      var out := Paint(t, x, y, lw, cv);
      var start := x + LabelOffset(t);
      var rightStart := start + |n.root| + 1 + LabelOffset(n.rightNode);
      RowOrder(y, lw);
      forall col | start <= col < start + |n.root| && col < lw
        ensures Reaches(out, lw, col, y) && At(out, lw, col, y) == n.root[col - start]
      {
        var p: nat := RowStart(y, lw) + col;
        assert InText(p, lw, y, start, n.root);
        assert NodeDrawn(lw, y, n.root, LabelEnd(n.leftNode, x), start, rightStart, p);
        assert Pad(out, p) == NodeCell(cv, lw, y, n.root, LabelEnd(n.leftNode, x), start, rightStart, p);
      }
    case StrLeaf(s) =>
      PutTextEffect(cv, lw, x, y, s);
      var out := PutText(cv, lw, x, y, s);
      forall col | x <= col < x + |s| && col < lw
        ensures Reaches(out, lw, col, y) && At(out, lw, col, y) == s[col - x]
      {
        assert InText(RowStart(y, lw) + col, lw, y, x, s);
      }
    case OtherLeaf(_) =>
  }

  /** Below a node's label, on row y+1, the left connector `/` runs from the
      left sub-tree's label end up to the label, and the right connector `\`
      runs from the label's end up to the right sub-tree's label, wherever
      those columns are short of the line width. */
  lemma {:induction false} PaintConnectors(n: GraphicTree, x: nat, y: nat, lw: nat, cv: seq<char>)
    requires lw > 0
    ensures var out := Paint(SubTree(n), x, y, lw, cv);
            var labelStart := x + LabelOffset(SubTree(n));
            var labelEnd := labelStart + |n.root|;
            var rightStart := labelEnd + 1 + LabelOffset(n.rightNode);
            var below := y + 1;
            && (forall col :: LabelEnd(n.leftNode, x) <= col < labelStart && col < lw ==>
                  Reaches(out, lw, col, below) && At(out, lw, col, below) == '/')
            && (forall col :: labelEnd <= col < rightStart && col < lw ==>
                  Reaches(out, lw, col, below) && At(out, lw, col, below) == '\\')
  {
    PaintNode(n, x, y, lw, cv);
    RowOrder(y, lw);
    var out := Paint(SubTree(n), x, y, lw, cv);
    var labelStart := x + LabelOffset(SubTree(n));
    var labelEnd := labelStart + |n.root|;
    var rightStart := labelEnd + 1 + LabelOffset(n.rightNode);
    var leftEnd := LabelEnd(n.leftNode, x);
    var below := y + 1;
    forall col | leftEnd <= col < labelStart && col < lw
      ensures Reaches(out, lw, col, below) && At(out, lw, col, below) == '/'
    {
      var p: nat := RowStart(below, lw) + col;
      assert !InText(p, lw, y, labelStart, n.root);
      assert InSpan(p, lw, below, leftEnd, labelStart);
      assert Pad(out, p) == NodeCell(cv, lw, y, n.root, leftEnd, labelStart, rightStart, p);
    }
    forall col | labelEnd <= col < rightStart && col < lw
      ensures Reaches(out, lw, col, below) && At(out, lw, col, below) == '\\'
    {
      var p: nat := RowStart(below, lw) + col;
      assert !InText(p, lw, y, labelStart, n.root);
      assert !InSpan(p, lw, below, leftEnd, labelStart);
      assert InSpan(p, lw, below, labelEnd, rightStart);
      assert Pad(out, p) == NodeCell(cv, lw, y, n.root, leftEnd, labelStart, rightStart, p);
    }
  }

  // ---------------------------------------------------------------------------
  // The recursive printer and its entry points.

  /** The drawing steps of a node, in the order the printer takes them. */
  lemma {:induction false} PaintSteps(n: GraphicTree, x: nat, y: nat, lw: int,
                                      leftEnd: nat, labelStart: nat, labelEnd: nat, rightStart: nat,
                                      c0: seq<char>, c1: seq<char>, c2: seq<char>, c3: seq<char>,
                                      c4: seq<char>, c5: seq<char>, c6: seq<char>)
    requires leftEnd == LabelEnd(n.leftNode, x) && labelStart == x + Width(n.leftNode) + 1
    requires labelEnd == labelStart + |n.root| && rightStart == labelEnd + 1 + LabelOffset(n.rightNode)
    requires c1 == Paint(n.leftNode, x, y + 2, lw, c0)
    requires c2 == PutRun(c1, lw, leftEnd, labelStart, y + 1, '/')
    requires c3 == PutText(c2, lw, labelStart, y, n.root)
    requires c4 == PutAt(c3, lw, labelEnd, y + 1, '\\')
    requires c5 == Paint(n.rightNode, labelEnd + 1, y + 2, lw, c4)
    requires c6 == PutRun(c5, lw, labelEnd + 1, rightStart, y + 1, '\\')
    ensures c6 == Paint(SubTree(n), x, y, lw, c0)
  {
  }

  /** What a layout call on a node returns and leaves, in terms of what its
      two recursive calls and its three drawing steps return and leave. */
  lemma NodeLayout(n: GraphicTree, x: nat, y: nat, lw: int,
                   leftCursor: nat, leftMax: nat, leftEnd: nat,
                   labelStart: nat, labelEnd: nat, rightX: nat,
                   rightCursor: nat, rightMax: nat, rightStart: nat, maxDepth: nat,
                   c0: seq<char>, c1: seq<char>, c2: seq<char>, c3: seq<char>,
                   c4: seq<char>, c5: seq<char>, c6: seq<char>)
    requires leftCursor == x + Width(n.leftNode) && leftMax == y + 2 + 2 * Height(n.leftNode)
    requires leftEnd == LabelEnd(n.leftNode, x)
    requires labelStart == leftCursor + 1 && labelEnd == labelStart + |n.root| && rightX == labelEnd + 1
    requires rightCursor == rightX + Width(n.rightNode) && rightMax == y + 2 + 2 * Height(n.rightNode)
    requires rightStart == rightX + LabelOffset(n.rightNode)
    requires maxDepth == Max(leftMax, rightMax)
    requires c1 == Paint(n.leftNode, x, y + 2, lw, c0)
    requires c2 == PutRun(c1, lw, leftEnd, labelStart, y + 1, '/')
    requires c3 == PutText(c2, lw, labelStart, y, n.root)
    requires c4 == PutAt(c3, lw, labelEnd, y + 1, '\\')
    requires c5 == Paint(n.rightNode, rightX, y + 2, lw, c4)
    requires c6 == PutRun(c5, lw, rightX, rightStart, y + 1, '\\')
    ensures c6 == Paint(SubTree(n), x, y, lw, c0)
    ensures rightCursor == x + Width(SubTree(n))
    ensures maxDepth == y + 2 * Height(SubTree(n))
    ensures labelStart == x + LabelOffset(SubTree(n)) && labelEnd == LabelEnd(SubTree(n), x)
  {
    PaintSteps(n, x, y, lw, leftEnd, labelStart, labelEnd, rightStart, c0, c1, c2, c3, c4, c5, c6);
  }

  /** Lays out `t` at column `x`, row `y` on canvas `cv`; returns the column
      after the drawing, the deepest row, and the columns of the label. */
  method PrintBinaryTreeR(t: Slot, x: nat, y: nat, cv: Canvas)
    returns (cursor: nat, maxDepth: nat, labelStart: nat, labelEnd: nat)
    modifies cv
    ensures cv.canvas == Paint(t, x, y, cv.lineWidth, old(cv.canvas))
    ensures cursor == x + Width(t)
    ensures maxDepth == y + 2 * Height(t)
    ensures labelStart == x + LabelOffset(t) && labelEnd == LabelEnd(t, x)
    decreases t, 1
  {
    match t
    case SubTree(n) =>
      cursor, maxDepth, labelStart, labelEnd := PrintNode(n, x, y, cv);
    case StrLeaf(s) =>
      DrawText(cv, x, y, s);
      cursor, maxDepth, labelStart, labelEnd := x + |s|, y, x, x + |s|;
    case OtherLeaf(_) =>
      cursor, maxDepth, labelStart, labelEnd := x, y, x, x;
  }

  /** The node case of PrintBinaryTreeR: the left sub-tree two rows down, the
      `/` run, the label, one `\`, the right sub-tree two rows down, then the
      rest of the `\` run up to the right sub-tree's label. */
  method PrintNode(n: GraphicTree, x: nat, y: nat, cv: Canvas)
    returns (cursor: nat, maxDepth: nat, labelStart: nat, labelEnd: nat)
    modifies cv
    ensures cv.canvas == Paint(SubTree(n), x, y, cv.lineWidth, old(cv.canvas))
    ensures cursor == x + Width(SubTree(n))
    ensures maxDepth == y + 2 * Height(SubTree(n))
    ensures labelStart == x + LabelOffset(SubTree(n)) && labelEnd == LabelEnd(SubTree(n), x)
    decreases SubTree(n), 0
  {
    ghost var c0 := cv.canvas;
    var leftCursor, leftMax, _, leftLabelEnd := PrintBinaryTreeR(n.leftNode, x, y + 2, cv);
    ghost var c1 := cv.canvas;
    cursor := leftCursor + 1;
    DrawRun(cv, leftLabelEnd, cursor, y + 1, '/');
    ghost var c2 := cv.canvas;
    labelStart := cursor;
    DrawText(cv, cursor, y, n.root);
    ghost var c3 := cv.canvas;
    cursor := cursor + |n.root|;
    labelEnd := cursor;
    cv.PutChar(cursor, y + 1, '\\');
    ghost var c4 := cv.canvas;
    cursor := cursor + 1;
    var rightCursor, rightMax, rightLabelStart, _ := PrintBinaryTreeR(n.rightNode, cursor, y + 2, cv);
    ghost var c5 := cv.canvas;
    maxDepth := leftMax;
    if rightMax > maxDepth {
      maxDepth := rightMax;
    }
    DrawRun(cv, cursor, rightLabelStart, y + 1, '\\');
    NodeLayout(n, x, y, cv.lineWidth, leftCursor, leftMax, leftLabelEnd, labelStart, labelEnd, cursor,
               rightCursor, rightMax, rightLabelStart, maxDepth, c0, c1, c2, c3, c4, c5, cv.canvas);
    cursor := rightCursor;
  }

  /** The loop that puts `ch` at columns a .. b-1 of row `row`. */
  method DrawRun(cv: Canvas, a: nat, b: nat, row: nat, ch: char)
    modifies cv
    ensures cv.canvas == PutRun(old(cv.canvas), cv.lineWidth, a, b, row, ch)
  {
    ghost var c0 := cv.canvas;
    if a < b {
      for i := a to b
        invariant cv.canvas == PutRun(c0, cv.lineWidth, a, i, row, ch)
      {
        cv.PutChar(i, row, ch);
      }
    }
  }

  /** The loop that puts the characters of `s` at row `row` from column `x` on. */
  method DrawText(cv: Canvas, x: nat, row: nat, s: string)
    modifies cv
    ensures cv.canvas == PutText(old(cv.canvas), cv.lineWidth, x, row, s)
  {
    ghost var c0 := cv.canvas;
    for k := 0 to |s|
      invariant cv.canvas == PutText(c0, cv.lineWidth, x, row, s[..k])
    {
      cv.PutChar(x + k, row, s[k]);
      assert s[..k + 1][..k] == s[..k];
    }
    assert s[..|s|] == s;
  }

  /** The text printed for `t` on a canvas of the given line width. */
  function Render(t: Slot, width: int): Output
  {
    if width == 0 then DivisionByZero else Written(Flush(Paint(t, 0, 0, width, []), Abs(width)))
  }

  method PrintTreeW(t: Slot, width: int) returns (out: Output)
    ensures out == Render(t, width)
  {
    var canvas := new Canvas(width);
    var _, _, _, _ := PrintBinaryTreeR(t, 0, 0, canvas);
    out := canvas.PrintOut();
  }

  method PrintTree(t: Slot) returns (out: Output)
    ensures out == Render(t, 30000)
  {
    out := PrintTreeW(t, 30000);
  }

  /** What row 0 holds at column `p` when a label of `root` starts at column
      `off` and nothing else is drawn there. */
  function LabelRowCell(off: nat, root: string, p: nat): char
  {
    if off <= p < off + |root| then root[p - off] else ' '
  }

  /** On row 0 of an empty canvas a node's cells are its label and blanks:
      its connectors are all on row 1. */
  lemma NodeRowZero(w: nat, root: string, leftEnd: nat, off: nat, rightStart: nat, p: nat)
    requires p < w
    ensures NodeCell([], w, 0, root, leftEnd, off, rightStart, p) == LabelRowCell(off, root, p)
  {
    RowOrder(0, w);
  }

  /** A node drawn at column 0 of an empty canvas, row 0, reaches past its
      label and holds on row 0 its label and blanks elsewhere. */
  lemma FirstRowCells(n: GraphicTree, w: nat)
    requires |n.root| > 0 && LabelOffset(SubTree(n)) + |n.root| <= w
    ensures var out := Paint(SubTree(n), 0, 0, w, []);
            && |out| >= LabelOffset(SubTree(n)) + |n.root|
            && forall p: nat :: p < w ==> Pad(out, p) == LabelRowCell(LabelOffset(SubTree(n)), n.root, p)
  {
    var t := SubTree(n);
    var off := LabelOffset(t);
    var out := Paint(t, 0, 0, w, []);
    PaintNode(n, 0, 0, w, []);
    RowOrder(0, w);
    var leftEnd := LabelEnd(n.leftNode, 0);
    var rightStart := off + |n.root| + 1 + LabelOffset(n.rightNode);
    PaintLabel(t, 0, 0, w, []);
    assert Reaches(out, w, off + |n.root| - 1, 0);
    forall p: nat | p < w
      ensures Pad(out, p) == LabelRowCell(off, n.root, p)
    {
      assert p < RowStart(2, w);
      NodeRowZero(w, n.root, leftEnd, off, rightStart, p);
    }
  }

  /** A row that holds a label at `off` and blanks elsewhere is the label
      after `off` blanks, then blanks. */
  lemma LabelRow(out: seq<char>, w: nat, off: nat, root: string)
    requires off + |root| <= |out| && off + |root| <= w
    requires forall p: nat :: p < w ==> Pad(out, p) == LabelRowCell(off, root, p)
    ensures var row := if |out| <= w then out else out[..w];
            && |row| >= off + |root|
            && row == Blanks(off) + root + Blanks(|row| - off - |root|)
  {
    var row := if |out| <= w then out else out[..w];
    var shown := Blanks(off) + root + Blanks(|row| - off - |root|);
    forall p | 0 <= p < |row|
      ensures row[p] == shown[p]
    {
      assert row[p] == Pad(out, p);
    }
  }

  /** A buffer whose first row is `shown` and then blanks prints `shown`
      without its trailing blanks as its first line. */
  lemma FlushShownRow(c: seq<char>, w: nat, shown: seq<char>, gap: nat)
    requires w > 0 && c != [] && (if |c| <= w then c else c[..w]) == shown + Blanks(gap)
    ensures var s := Flush(c, w);
            var first := TrimRight(shown);
            |s| > |first| && s[..|first|] == first && s[|first|] == '\n'
  {
    TrimRightBlanks(shown, gap);
    FlushFirstLine(c, w);
  }

  /** The first printed line of a node that fits in the line width is its
      label, indented by its offset: the left sub-tree's width plus one. */
  lemma RenderFirstLine(n: GraphicTree, width: int)
    requires |n.root| > 0 && LabelOffset(SubTree(n)) + |n.root| <= width
    ensures var first := TrimRight(Blanks(LabelOffset(SubTree(n))) + n.root);
            && Render(SubTree(n), width).Written?
            && |Render(SubTree(n), width).text| > |first|
            && Render(SubTree(n), width).text[..|first|] == first
            && Render(SubTree(n), width).text[|first|] == '\n'
  {
    var w: nat := width;
    var out := Paint(SubTree(n), 0, 0, w, []);
    var off := LabelOffset(SubTree(n));
    FirstRowCells(n, w);
    LabelRow(out, w, off, n.root);
    var row := if |out| <= w then out else out[..w];
    FlushShownRow(out, w, Blanks(off) + n.root, |row| - off - |n.root|);
  }
}
