/** The graphic tree: how a picture was built, as a tree whose internal nodes are
    operators (pin, compose, rotate) and whose primitive nodes are shapes.

    Every node carries a label `root` and two generic slots, `leftNode` and
    `rightNode`, which the tree printer walks without knowing the node's kind.
    A slot holds a sub-tree, a string leaf, or some other display value (the
    angle of a rotation is a number, not a string). Beside the slots each node
    keeps the typed fields its class sets, in `kind`. */
module GraphicTree {

  /** A display value that is not a string: the only one a node stores is the
      (negated) angle of a rotation, and only strings are drawn by the printer. */
  datatype Other = Number(x: real)

  /** The three-way content of a child slot. */
  datatype Slot =
    | SubTree(tree: GraphicTree)
    | StrLeaf(s: string)
    | OtherLeaf(v: Other)

  /** The typed fields of the operator nodes. */
  datatype Operation =
    | Pin(point: string, graphic: GraphicTree)
    | Compose(foregroundGraphic: GraphicTree, backgroundGraphic: GraphicTree)
    | Rotate(angle: real, graphic: GraphicTree)

  /** The typed fields of the primitive nodes (a text node's point size is not
      stored: its class only annotates the field). */
  datatype Shape =
    | Rectangle(width: real, height: real, color: string)
    | Triangle(side1: real, side2: real, angle: real, color: string)
    | Ellipse(width: real, height: real, color: string)
    | CircularSector(radius: real, angle: real, color: string)
    | Text(content: string, font: string, color: string)
    | EmptyShape

  /** Operator nodes and primitive nodes; a primitive also keeps its descriptor
      `data` and colour `col`. */
  datatype Kind =
    | OperationNode(op: Operation)
    | PrimitiveNode(data: string, col: string, shape: Shape)

  datatype GraphicTree = GraphicTree(root: string, leftNode: Slot, rightNode: Slot, kind: Kind)

  /** The slots and the label agree with the typed fields, as each node class sets them. */
  predicate Mirrored(t: GraphicTree)
  {
    match t.kind
    case OperationNode(op) =>
      (match op
       case Pin(point, g) =>
         t.root == "pin" && t.leftNode == StrLeaf(point) && t.rightNode == SubTree(g)
       case Compose(fg, bg) =>
         t.root == "compose" && t.leftNode == SubTree(fg) && t.rightNode == SubTree(bg)
       case Rotate(angle, g) =>
         t.root == "rotate" && t.leftNode == OtherLeaf(Number(angle)) && t.rightNode == SubTree(g))
    case PrimitiveNode(data, col, shape) =>
      match shape
      case EmptyShape =>
        t.root == "empty" && data == " " && col == " "
        && t.leftNode == StrLeaf("000") && t.rightNode == StrLeaf("none")
      case _ =>
        t.root == ShapeLabel(shape) && col == shape.color
        && t.leftNode == StrLeaf(data) && t.rightNode == StrLeaf(col)
  }

  function ShapeLabel(s: Shape): string
  {
    match s
    case Rectangle(_, _, _) => "rectangle"
    case Triangle(_, _, _, _) => "triangle"
    case Ellipse(_, _, _) => "ellipse"
    case CircularSector(_, _, _) => "circularSector"
    case Text(_, _, _) => "text"
    case EmptyShape => "empty"
  }

  /** Every node of the tree is mirrored and has a non-empty label. */
  predicate WellFormed(t: GraphicTree)
    decreases t
  {
    && Mirrored(t)
    && |t.root| > 0
    && (t.leftNode.SubTree? ==> WellFormed(t.leftNode.tree))
    && (t.rightNode.SubTree? ==> WellFormed(t.rightNode.tree))
  }

  // ---------------------------------------------------------------------------
  // The node constructors. Number formatting (Python's str of a float) is the
  // parameter `show`.

  /** A pin node: with `Mirrored`, its label is "pin", the point is its left
      slot and the pinned graphic its right slot. */
  function PinNode(point: string, graphic: GraphicTree): (t: GraphicTree)
    ensures t.kind == OperationNode(Pin(point, graphic)) && Mirrored(t)
    ensures WellFormed(graphic) ==> WellFormed(t)
  {
    GraphicTree("pin", StrLeaf(point), SubTree(graphic), OperationNode(Pin(point, graphic)))
  }

  /** A compose node: with `Mirrored`, its label is "compose", the foreground
      is its left slot and the background its right slot. */
  function ComposeNode(foreground: GraphicTree, background: GraphicTree): (t: GraphicTree)
    ensures t.kind == OperationNode(Compose(foreground, background)) && Mirrored(t)
    ensures WellFormed(foreground) && WellFormed(background) ==> WellFormed(t)
  {
    GraphicTree("compose", SubTree(foreground), SubTree(background),
                OperationNode(Compose(foreground, background)))
  }

  /** The node stores the NEGATED angle, both as its field and as its left slot. */
  function RotateNode(angle: real, graphic: GraphicTree): (t: GraphicTree)
    ensures t.kind == OperationNode(Rotate(-angle, graphic)) && Mirrored(t)
    ensures WellFormed(graphic) ==> WellFormed(t)
  {
    GraphicTree("rotate", OtherLeaf(Number(-angle)), SubTree(graphic),
                OperationNode(Rotate(-angle, graphic)))
  }

  function Primitive(shape: Shape, data: string): GraphicTree
    requires !shape.EmptyShape?
  {
    GraphicTree(ShapeLabel(shape), StrLeaf(data), StrLeaf(shape.color),
                PrimitiveNode(data, shape.color, shape))
  }

  /** The descriptor of a rectangle or an ellipse. */
  function SizeData(width: real, height: real, show: real -> string): string
  {
    "w:" + show(width) + ",h:" + show(height)
  }

  /** A primitive node's label is fixed by its shape and its colour is its
      right slot (by `Mirrored`); its descriptor is its left slot. */
  function RectangleNode(width: real, height: real, color: string, show: real -> string): (t: GraphicTree)
    ensures t.kind.PrimitiveNode? && t.kind.shape == Rectangle(width, height, color)
    ensures t.kind.data == SizeData(width, height, show)
    ensures WellFormed(t)
  {
    Primitive(Rectangle(width, height, color), SizeData(width, height, show))
  }

  function TriangleNode(side1: real, side2: real, angle: real, color: string,
                        show: real -> string): (t: GraphicTree)
    ensures t.kind.PrimitiveNode? && t.kind.shape == Triangle(side1, side2, angle, color)
    ensures t.kind.data == "s1:" + show(side1) + ",s2:" + show(side2) + ",a:" + show(angle)
    ensures WellFormed(t)
  {
    Primitive(Triangle(side1, side2, angle, color),
              "s1:" + show(side1) + ",s2:" + show(side2) + ",a:" + show(angle))
  }

  function EllipseNode(width: real, height: real, color: string, show: real -> string): (t: GraphicTree)
    ensures t.kind.PrimitiveNode? && t.kind.shape == Ellipse(width, height, color)
    ensures t.kind.data == SizeData(width, height, show)
    ensures WellFormed(t)
  {
    Primitive(Ellipse(width, height, color), SizeData(width, height, show))
  }

  function CircularSectorNode(radius: real, angle: real, color: string,
                              show: real -> string): (t: GraphicTree)
    ensures t.kind.PrimitiveNode? && t.kind.shape == CircularSector(radius, angle, color)
    ensures t.kind.data == "r:" + show(radius) + ",a:" + show(angle)
    ensures WellFormed(t)
  {
    Primitive(CircularSector(radius, angle, color), "r:" + show(radius) + ",a:" + show(angle))
  }

  function TextNode(content: string, font: string, points: real, color: string,
                    show: real -> string): (t: GraphicTree)
    ensures t.kind.PrimitiveNode? && t.kind.shape == Text(content, font, color)
    ensures t.kind.data == "c:" + content + ",f:" + font + ",p:" + show(points)
    ensures WellFormed(t)
  {
    Primitive(Text(content, font, color), "c:" + content + ",f:" + font + ",p:" + show(points))
  }

  /** The empty node: with `Mirrored`, its label is "empty", its descriptor
      and colour are blanks, and its slots are "000" and "none". */
  function EmptyNode(): (t: GraphicTree)
    ensures t.kind.PrimitiveNode? && t.kind.shape.EmptyShape?
    ensures WellFormed(t)
  {
    GraphicTree("empty", StrLeaf("000"), StrLeaf("none"), PrimitiveNode(" ", " ", EmptyShape))
  }

  // ---------------------------------------------------------------------------
  // Reading the slots back.

  /** An operator's sub-graphics are exactly the sub-trees in its slots, and a
      rotation's argument is the negation of what it stores. */
  lemma OperatorSlots(t: GraphicTree)
    requires Mirrored(t) && t.kind.OperationNode?
    ensures t.kind.op.Pin? ==> t.rightNode.tree == t.kind.op.graphic && t.leftNode.s == t.kind.op.point
    ensures t.kind.op.Compose? ==>
              t.leftNode.tree == t.kind.op.foregroundGraphic
              && t.rightNode.tree == t.kind.op.backgroundGraphic
    ensures t.kind.op.Rotate? ==>
              t.rightNode.tree == t.kind.op.graphic && t.leftNode.v.x == t.kind.op.angle
    ensures t.kind.op.Rotate? ==> RotateNode(-t.leftNode.v.x, t.rightNode.tree) == t
  {
  }

  /** A primitive's label is its shape's, its descriptor is its left slot and
      its colour its right slot; the empty node's slots are "000" and "none". */
  lemma PrimitiveSlots(t: GraphicTree)
    requires Mirrored(t) && t.kind.PrimitiveNode?
    ensures t.root == ShapeLabel(t.kind.shape)
    ensures !t.kind.shape.EmptyShape? ==>
              t.leftNode == StrLeaf(t.kind.data) && t.rightNode == StrLeaf(t.kind.shape.color)
    ensures t.kind.shape.EmptyShape? ==> t.leftNode == StrLeaf("000") && t.rightNode == StrLeaf("none")
  {
  }

  /** Rotating by `a` and reading the left slot gives back `-a`; the rotated
      graphic is the right slot. */
  lemma RotateStoresNegation(angle: real, g: GraphicTree)
    ensures RotateNode(angle, g).leftNode == OtherLeaf(Number(-angle))
    ensures RotateNode(angle, g).kind.op.angle == -angle
    ensures RotateNode(angle, g).rightNode == SubTree(g)
    ensures RotateNode(angle, g).root == "rotate"
  {
  }

  // ---------------------------------------------------------------------------
  // Descriptors as comma-separated fields.

  /** Splits `s` at every `sep`. */
  function Split(s: string, sep: char): (parts: seq<string>)
    ensures |parts| >= 1
    decreases |s|
  {
    if s == [] then [[]]
    else
      var rest := Split(s[1..], sep);
      if s[0] == sep then [[]] + rest
      else [[s[0]] + rest[0]] + rest[1..]
  }

  /** Joins the parts with `sep` between them. */
  function Join(parts: seq<string>, sep: char): string
    requires |parts| >= 1
    decreases |parts|
  {
    if |parts| == 1 then parts[0] else parts[0] + [sep] + Join(parts[1..], sep)
  }

  /** Splitting a joined string gives back its parts when no part holds the separator. */
  lemma {:induction false} SplitJoin(parts: seq<string>, sep: char)
    requires |parts| >= 1
    requires forall i :: 0 <= i < |parts| ==> sep !in parts[i]
    ensures Split(Join(parts, sep), sep) == parts
    decreases |parts|
  {
    if |parts| == 1 {
      SplitNoSep(parts[0], sep);
    } else {
      SplitJoin(parts[1..], sep);
      SplitPrefix(parts[0], Join(parts[1..], sep), sep);
    }
  }

  lemma {:induction false} SplitNoSep(s: string, sep: char)
    requires sep !in s
    ensures Split(s, sep) == [s]
    decreases |s|
  {
    if s != [] {
      SplitNoSep(s[1..], sep);
      assert [s[0]] + s[1..] == s;
    }
  }

  lemma {:induction false} SplitPrefix(a: string, b: string, sep: char)
    requires sep !in a
    ensures Split(a + [sep] + b, sep) == [a] + Split(b, sep)
    decreases |a|
  {
    if a == [] {
      assert a + [sep] + b == [sep] + b;
      assert ([sep] + b)[1..] == b;
    } else {
      SplitPrefix(a[1..], b, sep);
      assert (a + [sep] + b)[1..] == a[1..] + [sep] + b;
      assert [a[0]] + a[1..] == a;
    }
  }

  /** A rectangle's descriptor splits into its "w:" and "h:" fields when the
      formatted numbers hold no comma. */
  lemma RectangleDescriptor(width: real, height: real, color: string, show: real -> string)
    requires ',' !in show(width) && ',' !in show(height)
    ensures Split(RectangleNode(width, height, color, show).leftNode.s, ',')
            == ["w:" + show(width), "h:" + show(height)]
  {
    var parts := ["w:" + show(width), "h:" + show(height)];
    assert Join(parts, ',') == SizeData(width, height, show);
    SplitJoin(parts, ',');
  }

  /** An ellipse's descriptor splits into its "w:" and "h:" fields when the
      formatted numbers hold no comma. */
  lemma EllipseDescriptor(width: real, height: real, color: string, show: real -> string)
    requires ',' !in show(width) && ',' !in show(height)
    ensures Split(EllipseNode(width, height, color, show).leftNode.s, ',')
            == ["w:" + show(width), "h:" + show(height)]
  {
    var parts := ["w:" + show(width), "h:" + show(height)];
    assert Join(parts, ',') == SizeData(width, height, show);
    SplitJoin(parts, ',');
  }

  /** A triangle's descriptor splits into its "s1:", "s2:" and "a:" fields. */
  lemma TriangleDescriptor(side1: real, side2: real, angle: real, color: string, show: real -> string)
    requires ',' !in show(side1) && ',' !in show(side2) && ',' !in show(angle)
    ensures Split(TriangleNode(side1, side2, angle, color, show).leftNode.s, ',')
            == ["s1:" + show(side1), "s2:" + show(side2), "a:" + show(angle)]
  {
    var parts := ["s1:" + show(side1), "s2:" + show(side2), "a:" + show(angle)];
    assert Join(parts[2..], ',') == "a:" + show(angle);
    assert Join(parts, ',') == "s1:" + show(side1) + ",s2:" + show(side2) + ",a:" + show(angle);
    SplitJoin(parts, ',');
  }

  /** A circular sector's descriptor splits into its "r:" and "a:" fields. */
  lemma CircularSectorDescriptor(radius: real, angle: real, color: string, show: real -> string)
    requires ',' !in show(radius) && ',' !in show(angle)
    ensures Split(CircularSectorNode(radius, angle, color, show).leftNode.s, ',')
            == ["r:" + show(radius), "a:" + show(angle)]
  {
    var parts := ["r:" + show(radius), "a:" + show(angle)];
    assert Join(parts, ',') == "r:" + show(radius) + ",a:" + show(angle);
    SplitJoin(parts, ',');
  }

  /** A text node's descriptor splits into its "c:", "f:" and "p:" fields when
      neither the content nor the font holds a comma. */
  lemma TextDescriptor(content: string, font: string, points: real, color: string, show: real -> string)
    requires ',' !in content && ',' !in font && ',' !in show(points)
    ensures Split(TextNode(content, font, points, color, show).leftNode.s, ',')
            == ["c:" + content, "f:" + font, "p:" + show(points)]
  {
    var parts := ["c:" + content, "f:" + font, "p:" + show(points)];
    assert Join(parts[2..], ',') == "p:" + show(points);
    assert Join(parts, ',') == "c:" + content + ",f:" + font + ",p:" + show(points);
    SplitJoin(parts, ',');
  }
}
