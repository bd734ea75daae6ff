/** The character canvas of the tree printer: a logical grid of characters
    kept in a growable one-dimensional buffer, cell (x, y) at index
    y * lineWidth + x. */
module TextCanvas {

  /** The cell at index `p`, reading every cell past the end as a blank. */
  function Pad(s: seq<char>, p: nat): char
  {
    if p < |s| then s[p] else ' '
  }

  /** The index of the first cell of row `y`, that is y * lw, built up one row
      at a time so that proofs about neighbouring rows stay linear. */
  function RowStart(y: nat, lw: int): (r: int)
    ensures lw >= 0 ==> r >= 0
  {
    if y == 0 then 0 else RowStart(y - 1, lw) + lw
  }

  lemma {:induction false} RowStartIsProduct(y: nat, lw: int)
    ensures RowStart(y, lw) == y * lw
  {
    if y > 0 {
      RowStartIsProduct(y - 1, lw);
      assert y * lw == (y - 1) * lw + lw;
    }
  }

  /** The cell in column `x` of row `y`. */
  function At(cv: seq<char>, lw: nat, x: nat, y: nat): char
  {
    Pad(cv, RowStart(y, lw) + x)
  }

  /** The cell in column `x` of row `y` has been written (the canvas reaches it). */
  predicate Reaches(cv: seq<char>, lw: nat, x: nat, y: nat)
  {
    RowStart(y, lw) + x < |cv|
  }

  function Blanks(n: nat): (r: seq<char>)
    ensures |r| == n && forall i :: 0 <= i < n ==> r[i] == ' '
  {
    seq(n, _ => ' ')
  }

  /** The buffer after writing `c` at column `x` of row `y`, that is at index
      y * lw + x; a column at or past the line width is dropped. */
  function PutAt(cv: seq<char>, lw: int, x: nat, y: nat, c: char): seq<char>
  {
    if x < lw then
      var pos := RowStart(y, lw) + x;
      Place(cv, pos, c)
    else cv
  }

  /** The buffer with cell `pos` set to `c`, grown one blank at a time until
      it holds that cell. */
  function Place(cv: seq<char>, pos: nat, c: char): seq<char>
    decreases pos - |cv|
  {
    if pos < |cv| then cv[pos := c] else Place(cv + [' '], pos, c)
  }

  /** Growing one blank at a time is appending the blanks at once. */
  lemma {:induction false} PlaceGrows(cv: seq<char>, pos: nat, c: char)
    requires pos >= |cv|
    ensures Place(cv, pos, c) == cv + Blanks(pos - |cv|) + [c]
    decreases pos - |cv|
  {
    if pos == |cv| {
      assert (cv + [' '])[pos := c] == cv + [c];
      assert Blanks(0) == [];
    } else {
      PlaceGrows(cv + [' '], pos, c);
      assert Blanks(pos - |cv|) == [' '] + Blanks(pos - |cv| - 1);
    }
  }

  /** A column at or past the line width is ignored; otherwise the cell at
      y * lw + x becomes `c`, the canvas grows with blanks just far enough to
      hold it, and every other cell is unchanged. */
  lemma {:induction false} PutAtEffect(cv: seq<char>, lw: int, x: nat, y: nat, c: char)
    ensures var r := PutAt(cv, lw, x, y, c);
            && (x >= lw ==> r == cv)
            && (x < lw ==>
                  var pos := RowStart(y, lw) + x;
                  && |r| == (if pos < |cv| then |cv| else pos + 1)
                  && r[pos] == c
                  && forall p: nat :: p != pos ==> Pad(r, p) == Pad(cv, p))
  {
    var pos := RowStart(y, lw) + x;
    if x < lw && pos >= |cv| {
      PlaceGrows(cv, pos, c);
    }
  }

  /** `s` without its trailing blanks. */
  function TrimRight(s: seq<char>): (r: seq<char>)
    ensures |r| <= |s|
    decreases |s|
  {
    if s != [] && s[|s| - 1] == ' ' then TrimRight(s[..|s| - 1]) else s
  }

  /** Trimming keeps a prefix that does not end in a blank, and drops only blanks. */
  lemma {:induction false} TrimRightShape(s: seq<char>)
    ensures var r := TrimRight(s);
            && r == s[..|r|]
            && (r != [] ==> r[|r| - 1] != ' ')
            && forall i :: |r| <= i < |s| ==> s[i] == ' '
    decreases |s|
  {
    if s != [] && s[|s| - 1] == ' ' {
      var s' := s[..|s| - 1];
      TrimRightShape(s');
      assert s'[..|TrimRight(s')|] == s[..|TrimRight(s')|];
    }
  }

  /** What printing a buffer shows: each row of `n` cells (the last one possibly
      shorter) without its trailing blanks, followed by a line break. */
  function Flush(c: seq<char>, n: nat): string
    requires n > 0
    decreases |c|
  {
    if c == [] then []
    else if |c| <= n then TrimRight(c) + "\n"
    else TrimRight(c[..n]) + "\n" + Flush(c[n..], n)
  }

  function Abs(x: int): nat
  {
    if x < 0 then -x else x
  }

  /** What printing writes: the text, or the division by zero a zero line
      width raises. */
  datatype Output = Written(text: string) | DivisionByZero

  class Canvas {
    const lineWidth: int
    var canvas: seq<char>

    constructor (width: int)
      ensures lineWidth == width && canvas == []
    {
      lineWidth := width;
      canvas := [];
    }

    /** Writes `c` at cell (x, y), padding the buffer with blanks as it grows. */
    method PutChar(x: nat, y: nat, c: char)
      modifies this
      ensures canvas == PutAt(old(canvas), lineWidth, x, y, c)
    {
      if x < lineWidth {
        var pos := y * lineWidth + x;
        RowStartIsProduct(y, lineWidth);
        var l := |canvas|;
        if pos >= l {
          PlaceGrows(canvas, pos, c);
        }
        if pos < l {
          canvas := canvas[pos := c];
        } else {
          canvas := canvas + Blanks(pos - l);
          canvas := canvas + [c];
        }
      }
    }

    /** The text that flushing the buffer row by row writes out. Only the
        divisibility of the cell count by the line width is tested, so a
        negative width behaves as its absolute value; a zero width divides by
        zero at the first test. */
    method PrintOut() returns (out: Output)
      ensures lineWidth == 0 <==> out == DivisionByZero
      ensures lineWidth != 0 ==> out == Written(Flush(canvas, Abs(lineWidth)))
    {
      if lineWidth == 0 {
        return DivisionByZero;
      }
      var cells := canvas;
      var i := 0;
      var sp := 0;
      var text := [];
      while i < |cells|
        invariant i <= |cells|
        invariant text == Scanned(cells, lineWidth, i).0 && sp == Scanned(cells, lineWidth, i).1
      {
        var c := cells[i];
        if c != ' ' {
          text := text + Blanks(sp) + [c];
          sp := 0;
        } else {
          sp := sp + 1;
        }
        i := i + 1;
        if i % lineWidth == 0 {
          text := text + "\n";
          sp := 0;
        }
      }
      ScannedIsFlush(cells, lineWidth);
      if i % lineWidth != 0 {
        text := text + "\n";
      }
      out := Written(text);
    }
  }

  /** The text written and the number of blanks held back once PrintOut has
      scanned the first `i` cells of `cells`. */
  ghost function Scanned(cells: seq<char>, lw: int, i: nat): (string, nat)
    requires lw != 0 && i <= |cells|
    decreases i
  {
    if i == 0 then ([], 0)
    else
      var (out, sp) := Scanned(cells, lw, i - 1);
      var c := cells[i - 1];
      var (out', sp') := if c != ' ' then (out + Blanks(sp) + [c], 0) else (out, sp + 1);
      if i % lw == 0 then (out' + "\n", 0) else (out', sp')
  }

  /** The first cell of the row that cell `i` falls in, for rows of `n` cells. */
  function RowFloor(i: nat, n: nat): (r: nat)
    requires n > 0
    ensures r <= i && i - r < n && r % n == 0
  {
    DivModUnique(i - i % n, n, i / n, 0);
    i - i % n
  }

  /** A row start at or below `i` and less than a row away is the row floor of `i`. */
  lemma {:induction false} RowFloorUnique(i: nat, n: nat, r: nat)
    requires n > 0 && r % n == 0 && r <= i < r + n
    ensures RowFloor(i, n) == r
  {
    DivModUnique(i, n, r / n, i - r);
  }

  /** Once the first `i` cells are scanned, the text written is the flushed
      complete rows followed by the current row without its trailing blanks,
      and the blanks held back are that row's trailing blanks. */
  lemma {:induction false} ScannedRows(cells: seq<char>, lw: int, i: nat)
    requires lw != 0 && i <= |cells|
    ensures var n := Abs(lw);
            var r := RowFloor(i, n);
            && Scanned(cells, lw, i).0 == Flush(cells[..r], n) + TrimRight(cells[r..i])
            && Scanned(cells, lw, i).1 == (i - r) - |TrimRight(cells[r..i])|
    decreases i
  {
    var n := Abs(lw);
    if i == 0 {
      assert cells[..0] == [] && cells[0..0] == [];
    } else {
      var j := i - 1;
      ScannedRows(cells, lw, j);
      var rj := RowFloor(j, n);
      var (out, sp) := Scanned(cells, lw, j);
      assert cells[rj..i] == cells[rj..j] + [cells[j]];
      TrimStep(Flush(cells[..rj], n), cells[rj..j], cells[j], out, sp);
      RowBoundary(rj, i, lw);
      if i % lw == 0 {
        CloseRow(cells, rj, i, n);
        RowFloorUnique(i, n, i);
      } else {
        RowFloorUnique(i, n, rj);
      }
    }
  }

  /** After the scan, the closing line break makes the text the flushed buffer. */
  lemma {:induction false} ScannedIsFlush(cells: seq<char>, lw: int)
    requires lw != 0
    ensures Scanned(cells, lw, |cells|).0 + (if |cells| % lw != 0 then "\n" else "") == Flush(cells, Abs(lw))
  {
    var n := Abs(lw);
    ScannedRows(cells, lw, |cells|);
    var r := RowFloor(|cells|, n);
    assert cells[r..|cells|] == cells[r..];
    if r < |cells| {
      RowBoundary(r, |cells|, lw);
      CompleteRow(cells, r, n);
    } else {
      MultipleOfAbs(|cells|, lw);
      assert cells[..r] == cells;
      assert TrimRight(cells[r..]) == [];
    }
  }

  /** A line break after a complete row flushes the text up to the row's end. */
  lemma {:induction false} CloseRow(c: seq<char>, rowStart: nat, i: nat, n: nat)
    requires n > 0 && rowStart % n == 0 && rowStart < i <= |c| && i <= rowStart + n
    ensures Flush(c[..rowStart], n) + TrimRight(c[rowStart..i]) + "\n" == Flush(c[..i], n) + TrimRight(c[i..i])
  {
    CompleteRow(c[..i], rowStart, n);
    assert c[..i][..rowStart] == c[..rowStart];
    assert c[..i][rowStart..] == c[rowStart..i];
    assert TrimRight(c[i..i]) == [];
    assert Flush(c[..i], n) + [] == Flush(c[..i], n);
  }

  /** Flushing `c` when all but its last (non-empty) row have been flushed. */
  lemma {:induction false} CompleteRow(c: seq<char>, rowStart: nat, n: nat)
    requires n > 0 && rowStart % n == 0 && rowStart < |c| <= rowStart + n
    ensures Flush(c, n) == Flush(c[..rowStart], n) + TrimRight(c[rowStart..]) + "\n"
  {
    FlushAppend(c[..rowStart], c[rowStart..], n);
    assert c[..rowStart] + c[rowStart..] == c;
  }

  // ---------------------------------------------------------------------------
  // Arithmetic and sequence facts used above.

  lemma {:induction false} MulPositive(k: int, n: nat)
    requires k >= 1
    ensures k * n >= n
  {
    assert k * n == (k - 1) * n + n;
    assert (k - 1) * n >= 0;
  }

  lemma {:induction false} DivModUnique(a: int, n: nat, q: int, r: int)
    requires n > 0 && 0 <= r < n && a == q * n + r
    ensures a % n == r && a / n == q
  {
    var q', r' := a / n, a % n;
    assert a == q' * n + r';
    assert (q - q') * n == r' - r by {
      assert q * n - q' * n == (q - q') * n;
    }
    if q > q' {
      MulPositive(q - q', n);
    } else if q < q' {
      MulPositive(q' - q, n);
    }
  }

  /** Within one row of `|lw|` cells starting at a multiple of `lw`, the index is
      a multiple of `lw` only at the row's end. */
  lemma {:induction false} RowBoundary(rowStart: nat, i: nat, lw: int)
    requires lw != 0 && rowStart % Abs(lw) == 0 && rowStart < i <= rowStart + Abs(lw)
    ensures (i % lw == 0) <==> (i == rowStart + Abs(lw))
    ensures i % lw == 0 ==> i % Abs(lw) == 0
  {
    var n := Abs(lw);
    var q := rowStart / n;
    assert rowStart == q * n;
    if i == rowStart + n {
      assert i == (q + 1) * n + 0;
      DivModUnique(i, n, q + 1, 0);
      if lw < 0 {
        assert i == (-(q + 1)) * lw + 0;
        DivModUnique(i, n, q + 1, 0);
        assert i / lw * lw == i - i % lw;
        ModOfNegative(i, lw, q + 1);
      }
    } else {
      DivModUnique(i, n, q, i - rowStart);
      if lw < 0 {
        ModOfNegative(i, lw, q);
      }
    }
  }

  lemma {:induction false} MultipleOfAbs(i: nat, lw: int)
    requires lw != 0 && i % Abs(lw) == 0
    ensures i % lw == 0
  {
    if lw < 0 {
      var n := Abs(lw);
      ModOfNegative(i, lw, i / n);
    }
  }

  lemma {:induction false} ModOfNegative(i: int, lw: int, q: int)
    requires lw < 0 && 0 <= i - q * Abs(lw) < Abs(lw)
    ensures i % lw == i - q * Abs(lw)
  {
    var n := Abs(lw);
    var r := i - q * n;
    assert i == (-q) * lw + r;
    var q', r' := i / lw, i % lw;
    assert i == q' * lw + r' && 0 <= r' < n;
    assert i == (-q') * n + r';
    DivModUnique(i, n, -q', r');
    DivModUnique(i, n, q, r);
  }

  /** One character of the loop in PrintOut: a non-blank flushes the pending blanks. */
  lemma {:induction false} TrimStep(done: string, row: seq<char>, c: char, out: string, sp: nat)
    requires out == done + TrimRight(row) && sp == |row| - |TrimRight(row)|
    ensures c != ' ' ==> out + Blanks(sp) + [c] == done + TrimRight(row + [c]) && 0 == |row| + 1 - |TrimRight(row + [c])|
    ensures c == ' ' ==> out == done + TrimRight(row + [c]) && sp + 1 == |row| + 1 - |TrimRight(row + [c])|
  {
    if c != ' ' {
      TrimStepNonBlank(row, c);
      assert out + Blanks(sp) + [c] == done + (TrimRight(row) + Blanks(sp) + [c]);
    } else {
      TrimStepBlank(row);
    }
  }

  lemma {:induction false} TrimStepNonBlank(row: seq<char>, c: char)
    requires c != ' '
    ensures TrimRight(row) + Blanks(|row| - |TrimRight(row)|) + [c] == TrimRight(row + [c])
  {
    var r := TrimRight(row);
    TrimRightShape(row);
    var gap := Blanks(|row| - |r|);
    assert (row + [c])[|row|] == c;
    assert TrimRight(row + [c]) == row + [c];
    forall i | 0 <= i < |row|
      ensures (r + gap)[i] == row[i]
    {
      if i < |r| {
        assert r[i] == row[..|r|][i];
      } else {
        assert gap[i - |r|] == ' ';
      }
    }
    assert r + gap == row;
  }

  lemma {:induction false} TrimStepBlank(row: seq<char>)
    ensures TrimRight(row + [' ']) == TrimRight(row)
  {
    assert (row + [' '])[..|row|] == row;
  }

  /** Blanks after the last character do not show. */
  lemma {:induction false} TrimRightBlanks(s: seq<char>, k: nat)
    ensures TrimRight(s + Blanks(k)) == TrimRight(s)
    decreases k
  {
    if k > 0 {
      assert s + Blanks(k) == (s + Blanks(k - 1)) + [' '];
      TrimStepBlank(s + Blanks(k - 1));
      TrimRightBlanks(s, k - 1);
    } else {
      assert s + Blanks(0) == s;
    }
  }

  /** Flushing splits at any row boundary. */
  lemma {:induction false} FlushAppend(a: seq<char>, b: seq<char>, n: nat)
    requires n > 0 && |a| % n == 0
    ensures Flush(a + b, n) == Flush(a, n) + Flush(b, n)
    decreases |a|
  {
    if a == [] {
      assert a + b == b;
    } else {
      RowsLeft(|a|, n);
      var a' := a[n..];
      FlushAppend(a', b, n);
      FlushPeel(a + b, n);
      FlushPeel(a, n);
      SplitAfterPrefix(a, b, n);
    }
  }

  lemma {:induction false} SplitAfterPrefix(a: seq<char>, b: seq<char>, n: nat)
    requires n <= |a|
    ensures (a + b)[..n] == a[..n] && (a + b)[n..] == a[n..] + b
  {
  }

  /** A buffer of at least one full row flushes as its first row and then the rest. */
  lemma {:induction false} FlushPeel(c: seq<char>, n: nat)
    requires n > 0 && |c| >= n
    ensures Flush(c, n) == TrimRight(c[..n]) + "\n" + Flush(c[n..], n)
  {
    if |c| == n {
      assert c[..n] == c && c[n..] == [];
    }
  }

  /** A positive multiple of `n` holds a full row, and what follows it is
      again a multiple of `n`. */
  lemma {:induction false} RowsLeft(len: nat, n: nat)
    requires n > 0 && len % n == 0 && len > 0
    ensures len >= n && (len - n) % n == 0
  {
    if len < n {
      DivModUnique(len, n, 0, len);
    }
    DivModUnique(len - n, n, len / n - 1, 0);
  }

  // ---------------------------------------------------------------------------
  // What the printed text looks like.

  /** No line break in `s` follows a blank. */
  predicate NoBlankBeforeBreak(s: string)
  {
    forall i :: 0 < i < |s| && s[i] == '\n' ==> s[i - 1] != ' '
  }

  /** For a buffer without line breaks of its own: no printed line ends in a
      blank, and the text is empty exactly for an empty buffer and otherwise
      ends with a line break. */
  lemma {:induction false} FlushLines(c: seq<char>, n: nat)
    requires n > 0 && '\n' !in c
    ensures var out := Flush(c, n);
            && (out == [] <==> c == [])
            && (out != [] ==> out[|out| - 1] == '\n')
            && NoBlankBeforeBreak(out)
    decreases |c|
  {
    if c != [] {
      var row := if |c| <= n then c else c[..n];
      var rest := if |c| <= n then [] else Flush(c[n..], n);
      assert forall j :: 0 <= j < |row| ==> row[j] in c;
      if |c| > n {
        assert forall j :: 0 <= j < |c| - n ==> c[n..][j] in c;
        FlushLines(c[n..], n);
      }
      TrimRightShape(row);
      LineThenRest(TrimRight(row), rest);
    }
  }

  lemma {:induction false} LineThenRest(t: string, rest: string)
    requires '\n' !in t && (t != [] ==> t[|t| - 1] != ' ') && NoBlankBeforeBreak(rest)
    ensures NoBlankBeforeBreak(t + "\n" + rest)
  {
    var out := t + "\n" + rest;
    assert forall j :: 0 <= j < |t| ==> out[j] == t[j] && t[j] in t;
    forall i | 0 < i < |out| && out[i] == '\n' ensures out[i - 1] != ' ' {
      if i > |t| + 1 {
        assert out[i] == rest[i - |t| - 1];
        assert out[i - 1] == rest[i - 1 - |t| - 1];
      }
    }
  }

  /** The text starts with the first row of the buffer without its trailing
      blanks, followed by a line break. */
  lemma {:induction false} FlushFirstLine(c: seq<char>, n: nat)
    requires n > 0 && c != []
    ensures var row := if |c| <= n then c else c[..n];
            Flush(c, n)[..|TrimRight(row)|] == TrimRight(row)
            && Flush(c, n)[|TrimRight(row)|] == '\n'
  {
  }
}
