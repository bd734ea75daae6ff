/** Comparing two GIF animations frame by frame: the checks that come first,
    and the list of frames that differ. */
module AnimationCompare {
  import opened Images

  /** A decoded animation: one size for all frames, and its frames, each a
      grid of `height` rows of `width` pixels. */
  datatype Gif<P> = Gif(width: nat, height: nat, frames: seq<seq<seq<P>>>)

  predicate FrameShaped<P>(f: seq<seq<P>>, width: nat, height: nat)
  {
    |f| == height && forall r :: 0 <= r < |f| ==> |f[r]| == width
  }

  predicate ValidGif<P>(g: Gif<P>)
  {
    forall i :: 0 <= i < |g.frames| ==> FrameShaped(g.frames[i], g.width, g.height)
  }

  /** An animation whose frames all have its size, as a decoder delivers it. */
  type Animation<P> = g: Gif<P> | ValidGif(g) witness Gif(0, 0, [])

  /** Row `a`, column `b` exists in both frames and holds different pixels. */
  predicate Differs<P(==)>(f1: seq<seq<P>>, f2: seq<seq<P>>, a: nat, b: nat)
  {
    a < |f1| && a < |f2| && b < |f1[a]| && b < |f2[a]| && f1[a][b] != f2[a][b]
  }

  /** Some position of the two frames differs. */
  ghost predicate FrameDiffers<P>(f1: seq<seq<P>>, f2: seq<seq<P>>)
  {
    exists a: nat, b: nat :: Differs(f1, f2, a, b)
  }

  /** A difference among the positions scanned before row `j`, column `k`,
      each row being scanned over `h` columns. */
  ghost predicate SeenDiffers<P>(f1: seq<seq<P>>, f2: seq<seq<P>>, j: nat, k: nat, h: nat)
  {
    exists a: nat, b: nat :: Differs(f1, f2, a, b) && ((a < j && b < h) || (a == j && b < k))
  }

  /** The indices, in increasing order, of the frames before `i` that differ. */
  ghost function DivergentFrames<P>(g1: seq<seq<seq<P>>>, g2: seq<seq<seq<P>>>, i: nat): seq<nat>
    requires i <= |g1| && i <= |g2|
    decreases i
  {
    if i == 0 then []
    else DivergentFrames(g1, g2, i - 1) + (if FrameDiffers(g1[i - 1], g2[i - 1]) then [i - 1] else [])
  }

  /** The scan reads row `j`, column `k` for every `j < width` and
      `k < height`, so frames that are neither square nor empty raise an
      index error on the first frame. */
  predicate ScanOverruns<P>(gif: Gif<P>)
  {
    |gif.frames| > 0 && gif.width > 0 && gif.height > 0 && gif.width != gif.height
  }

  /** What comparing two animation files returns: the extension check, the
      frame-count check and the frame-size check, in this order and before
      any frame is read; then the index error of a scan that overruns; then
      whether no frame differs. */
  ghost function AnimationVerdict<P>(file1: string, file2: string, gif1: Animation<P>, gif2: Animation<P>): Result<bool>
  {
    if !(EndsWith(file1, ".gif") && EndsWith(file2, ".gif")) then Err(Exit(AnimationsNotSupported))
    else if |gif1.frames| != |gif2.frames| then Err(Exit(DifferentFramesNumber))
    else if gif1.width != gif2.width || gif1.height != gif2.height then Err(Exit(DifferentFrameSize))
    else if ScanOverruns(gif1) then Err(IndexError)
    else Ok(|DivergentFrames(gif1.frames, gif2.frames, |gif1.frames|)| == 0)
  }

  /** Compares the animations decoded from `file1` and `file2` frame by frame,
      collecting the index of each frame in which some scanned pixel differs;
      returns the verdict and the collected indices. */
  method CompareAnimation<P(==)>(file1: string, file2: string, open: string -> Animation<P>)
    returns (r: Result<bool>, result: seq<nat>)
    ensures r == AnimationVerdict(file1, file2, open(file1), open(file2))
    ensures r.Ok? ==> result == DivergentFrames(open(file1).frames, open(file2).frames, |open(file1).frames|)
  {
    result := [];
    if !(EndsWith(file1, ".gif") && EndsWith(file2, ".gif")) {
      return Err(Exit(AnimationsNotSupported)), result;
    }
    var gif1, gif2 := open(file1), open(file2);
    if |gif1.frames| != |gif2.frames| {
      return Err(Exit(DifferentFramesNumber)), result;
    }
    if gif1.width != gif2.width || gif1.height != gif2.height {
      return Err(Exit(DifferentFrameSize)), result;
    }
    var width, height := gif1.width, gif1.height;
    for i := 0 to |gif1.frames|
      invariant result == DivergentFrames(gif1.frames, gif2.frames, i)
      invariant i > 0 && width > 0 && height > 0 ==> width == height
    {
      var arr1, arr2 := gif1.frames[i], gif2.frames[i];
      assert FrameShaped(arr1, width, height) && FrameShaped(arr2, width, height);
      ghost var before := result;
      DivergentBelow(gif1.frames, gif2.frames, i);
      if |before| > 0 {
        assert before[|before| - 1] in before;
      }
      for j := 0 to width
        invariant result == before + (if SeenDiffers(arr1, arr2, j, 0, height) then [i] else [])
        invariant j > 0 && height > 0 ==> j <= height && height <= width
      {
        for k := 0 to height
          invariant result == before + (if SeenDiffers(arr1, arr2, j, k, height) then [i] else [])
          invariant k > 0 ==> j < height && k <= width
        {
          if j >= |arr1| || k >= |arr1[j]| {
            return Err(IndexError), result;
          }
          SeenStep(arr1, arr2, j, k, height);
          if arr1[j][k] != arr2[j][k] {
            if |result| == 0 || result[|result| - 1] != i {
              result := result + [i];
            }
          }
        }
        SeenNextRow(arr1, arr2, j, height);
      }
      ScanCoversFrame(arr1, arr2, width, height);
    }
    r := Ok(|result| == 0);
  }

  // ---------------------------------------------------------------------------
  // The scan, one position at a time.

  /** Scanning one more position adds exactly that position. */
  lemma SeenStep<P>(f1: seq<seq<P>>, f2: seq<seq<P>>, j: nat, k: nat, h: nat)
    requires k < h
    ensures SeenDiffers(f1, f2, j, k + 1, h) <==> SeenDiffers(f1, f2, j, k, h) || Differs(f1, f2, j, k)
  {
    if Differs(f1, f2, j, k) {
      assert Differs(f1, f2, j, k) && (j == j && k < k + 1);
    }
    if SeenDiffers(f1, f2, j, k + 1, h) {
      var a: nat, b: nat :| Differs(f1, f2, a, b) && ((a < j && b < h) || (a == j && b < k + 1));
      if !(a == j && b == k) {
        assert Differs(f1, f2, a, b) && ((a < j && b < h) || (a == j && b < k));
      }
    }
  }

  /** A finished row is the start of the next. */
  lemma SeenNextRow<P>(f1: seq<seq<P>>, f2: seq<seq<P>>, j: nat, h: nat)
    ensures SeenDiffers(f1, f2, j + 1, 0, h) <==> SeenDiffers(f1, f2, j, h, h)
  {
    if SeenDiffers(f1, f2, j + 1, 0, h) {
      var a: nat, b: nat :| Differs(f1, f2, a, b) && ((a < j + 1 && b < h) || (a == j + 1 && b < 0));
      assert Differs(f1, f2, a, b) && ((a < j && b < h) || (a == j && b < h));
    }
    if SeenDiffers(f1, f2, j, h, h) {
      var a: nat, b: nat :| Differs(f1, f2, a, b) && ((a < j && b < h) || (a == j && b < h));
      assert Differs(f1, f2, a, b) && ((a < j + 1 && b < h) || (a == j + 1 && b < 0));
    }
  }

  /** A scan that did not overrun has looked at every position of the frame. */
  lemma ScanCoversFrame<P>(f1: seq<seq<P>>, f2: seq<seq<P>>, width: nat, height: nat)
    requires FrameShaped(f1, width, height) && FrameShaped(f2, width, height)
    requires width > 0 && height > 0 ==> width == height
    ensures SeenDiffers(f1, f2, width, 0, height) <==> FrameDiffers(f1, f2)
  {
    if FrameDiffers(f1, f2) {
      var a: nat, b: nat :| Differs(f1, f2, a, b);
      assert Differs(f1, f2, a, b) && ((a < width && b < height) || (a == width && b < 0));
    }
  }

  // ---------------------------------------------------------------------------
  // What the collected indices mean.

  /** Every collected index is below the number of frames scanned. */
  lemma {:induction false} DivergentBelow<P>(g1: seq<seq<seq<P>>>, g2: seq<seq<seq<P>>>, i: nat)
    requires i <= |g1| && i <= |g2|
    ensures forall x :: x in DivergentFrames(g1, g2, i) ==> x < i
    decreases i
  {
    if i > 0 {
      DivergentBelow(g1, g2, i - 1);
    }
  }

  predicate Increasing(s: seq<nat>)
  {
    forall a, b :: 0 <= a < b < |s| ==> s[a] < s[b]
  }

  /** The indices are strictly increasing, so each appears once. */
  lemma {:induction false} DivergentIncreasing<P>(g1: seq<seq<seq<P>>>, g2: seq<seq<seq<P>>>, i: nat)
    requires i <= |g1| && i <= |g2|
    ensures Increasing(DivergentFrames(g1, g2, i))
    decreases i
  {
    if i > 0 {
      DivergentIncreasing(g1, g2, i - 1);
      DivergentBelow(g1, g2, i - 1);
      var s := DivergentFrames(g1, g2, i - 1);
      var t := DivergentFrames(g1, g2, i);
      assert t == s + (if FrameDiffers(g1[i - 1], g2[i - 1]) then [i - 1] else []);
      forall a, b | 0 <= a < b < |t|
        ensures t[a] < t[b]
      {
        if b < |s| {
          assert t[a] == s[a] && t[b] == s[b];
        } else {
          assert t[a] == s[a] && s[a] in s && t[b] == i - 1;
        }
      }
    }
  }

  /** A frame index is collected exactly when that frame differs. */
  lemma {:induction false} DivergentMembers<P>(g1: seq<seq<seq<P>>>, g2: seq<seq<seq<P>>>, i: nat)
    requires i <= |g1| && i <= |g2|
    ensures forall x: nat :: x in DivergentFrames(g1, g2, i) <==> x < i && FrameDiffers(g1[x], g2[x])
    decreases i
  {
    if i > 0 {
      DivergentMembers(g1, g2, i - 1);
    }
  }

  /** Two frames of one shape differ nowhere exactly when they are equal. */
  lemma SameFrames<P>(f1: seq<seq<P>>, f2: seq<seq<P>>, width: nat, height: nat)
    requires FrameShaped(f1, width, height) && FrameShaped(f2, width, height)
    ensures !FrameDiffers(f1, f2) <==> f1 == f2
  {
    if !FrameDiffers(f1, f2) {
      forall a | 0 <= a < height
        ensures f1[a] == f2[a]
      {
        forall b | 0 <= b < width
          ensures f1[a][b] == f2[a][b]
        {
          assert !Differs(f1, f2, a, b);
        }
      }
    }
  }

  /** Two animation files are reported the same exactly when both are GIF
      files, the scan does not overrun, and the animations have the same
      size and the same frames. */
  lemma AnimationSame<P>(file1: string, file2: string, gif1: Animation<P>, gif2: Animation<P>)
    ensures AnimationVerdict(file1, file2, gif1, gif2) == Ok(true) <==>
              && EndsWith(file1, ".gif") && EndsWith(file2, ".gif") && !ScanOverruns(gif1)
              && gif1.width == gif2.width && gif1.height == gif2.height && gif1.frames == gif2.frames
  {
    if && EndsWith(file1, ".gif") && EndsWith(file2, ".gif") && !ScanOverruns(gif1)
       && gif1.width == gif2.width && gif1.height == gif2.height && |gif1.frames| == |gif2.frames|
    {
      var n := |gif1.frames|;
      DivergentMembers(gif1.frames, gif2.frames, n);
      var s := DivergentFrames(gif1.frames, gif2.frames, n);
      if |s| == 0 {
        forall x | 0 <= x < n
          ensures gif1.frames[x] == gif2.frames[x]
        {
          assert x !in s;
          SameFrames(gif1.frames[x], gif2.frames[x], gif1.width, gif1.height);
        }
        assert gif1.frames == gif2.frames;
      } else {
        assert s[0] in s;
        SameFrames(gif1.frames[s[0]], gif2.frames[s[0]], gif1.width, gif1.height);
      }
    }
  }

  /** A GIF file whose frames are square or empty, compared with itself, is
      the same. */
  lemma AnimationSelfSame<P>(file: string, gif: Animation<P>)
    requires EndsWith(file, ".gif") && !ScanOverruns(gif)
    ensures AnimationVerdict(file, file, gif, gif) == Ok(true)
  {
    AnimationSame(file, file, gif, gif);
  }
}
