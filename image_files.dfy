/** Comparing two image files: choosing the reader by extension, the SVG
    render-size decision, the PNG size check, and the pixel comparison of
    what they deliver. Parsing and decoding are parameters. */
module ImageFiles {
  import opened Images
  import opened PixelCompare

  /** What the readers get from a file: the attributes of an SVG root
      element, an SVG rasterised at a given size, and a decoded PNG. */
  datatype Decoders<P> = Decoders(
    attributes: string -> map<string, string>,
    rasterise: (string, int, int) -> Image<P>,
    open: string -> Image<P>)

  // ---------------------------------------------------------------------------
  // Integer literals, as far as the render size needs them.

  predicate IsDigit(c: char)
  {
    '0' <= c <= '9'
  }

  predicate AllDigits(s: string)
  {
    forall i :: 0 <= i < |s| ==> IsDigit(s[i])
  }

  /** The value of a string of decimal digits, most significant first. */
  function DigitsValue(s: string): nat
    requires AllDigits(s)
    decreases |s|
  {
    if |s| == 0 then 0
    else DigitsValue(s[..|s| - 1]) * 10 + (s[|s| - 1] as int - '0' as int)
  }

  /** A decimal integer literal: an optional sign followed by at least one digit. */
  predicate IsIntLiteral(s: string)
  {
    var digits := if |s| > 0 && (s[0] == '+' || s[0] == '-') then s[1..] else s;
    |digits| > 0 && AllDigits(digits)
  }

  /** Converts a decimal literal to its integer value, as `int(s)` does;
      `None` where that conversion raises an error. */
  function ParseInt(s: string): (r: Option<int>)
    ensures r.Some? <==> IsIntLiteral(s)
  {
    if |s| > 0 && (s[0] == '+' || s[0] == '-') then
      var digits := s[1..];
      if |digits| > 0 && AllDigits(digits) then
        var value: int := DigitsValue(digits);
        Some(if s[0] == '-' then -value else value)
      else None
    else if |s| > 0 && AllDigits(s) then Some(DigitsValue(s))
    else None
  }

  /** The decimal digits of `n`, without leading zeros. */
  function NatToString(n: nat): (s: string)
    ensures |s| > 0 && AllDigits(s)
    decreases n
  {
    if n < 10 then [('0' as int + n) as char]
    else NatToString(n / 10) + [('0' as int + n % 10) as char]
  }

  /** The decimal form of `n`, with a minus sign when it is negative. */
  function IntToString(n: int): string
  {
    if n < 0 then "-" + NatToString(-n) else NatToString(n)
  }

  /** Reading back the digits of a number gives the number. */
  lemma {:induction false} DigitsOfNat(n: nat)
    ensures DigitsValue(NatToString(n)) == n
    decreases n
  {
    if n >= 10 {
      DigitsOfNat(n / 10);
      var s := NatToString(n);
      assert s[..|s| - 1] == NatToString(n / 10);
    }
  }

  /** Every integer written in decimal converts back to itself. */
  lemma ParseIntOfString(n: int)
    ensures ParseInt(IntToString(n)) == Some(n)
  {
    if n < 0 {
      DigitsOfNat(-n);
      assert IntToString(n)[1..] == NatToString(-n);
    } else {
      DigitsOfNat(n);
      var s := NatToString(n);
      assert s[0] != '+' && s[0] != '-' by {
        assert IsDigit(s[0]);
      }
    }
  }

  // ---------------------------------------------------------------------------
  // The SVG render size.

  /** The size both SVG files are rasterised at, from the root attributes of
      the candidate (`given`) and of the reference. The presence test looks
      for `height` only, since `'width' and 'height' in d` means
      `'height' in d`; a `width` that is missing then raises a key error,
      looked up in the candidate first; both strings must be equal before
      the reference's are converted, width first. A reference without a
      height is rasterised at 500 by 500. */
  function SvgRenderSize(given: map<string, string>, reference: map<string, string>): (r: Result<(int, int)>)
    ensures "height" !in reference ==> r == Ok((500, 500))
    ensures "height" in reference && "height" !in given ==> r == Err(Exit(SvgWithoutSize))
    ensures r == Err(Exit(DifferentSize)) <==>
              && "height" in reference && "height" in given && "width" in given && "width" in reference
              && (given["width"] != reference["width"] || given["height"] != reference["height"])
    ensures "height" in reference && "height" in given && ("width" !in given || "width" !in reference) ==>
              r == Err(KeyError("width"))
    ensures && "height" in reference && "height" in given && "width" in given && "width" in reference
            && given["width"] == reference["width"] && given["height"] == reference["height"] ==>
              && (ParseInt(reference["width"]).None? ==> r == Err(ValueError(reference["width"])))
              && (ParseInt(reference["width"]).Some? && ParseInt(reference["height"]).None? ==>
                    r == Err(ValueError(reference["height"])))
    ensures r.Ok? && "height" in reference ==>
              && "height" in given && "width" in given && "width" in reference
              && given["width"] == reference["width"] && given["height"] == reference["height"]
              && ParseInt(reference["width"]) == Some(r.value.0)
              && ParseInt(reference["height"]) == Some(r.value.1)
  {
    if "height" in reference then
      if "height" in given then
        if "width" !in given || "width" !in reference then Err(KeyError("width"))
        else if given["width"] != reference["width"] || given["height"] != reference["height"] then
          Err(Exit(DifferentSize))
        else
          match ParseInt(reference["width"])
          case None => Err(ValueError(reference["width"]))
          case Some(width) =>
            match ParseInt(reference["height"])
            case None => Err(ValueError(reference["height"]))
            case Some(height) => Ok((width, height))
      else Err(Exit(SvgWithoutSize))
    else Ok((500, 500))
  }

  /** Two SVG files that declare the same decimal size are rasterised at
      exactly that size. */
  lemma SvgDeclaredSize(given: map<string, string>, reference: map<string, string>, width: int, height: int)
    requires "width" in given && "height" in given && "width" in reference && "height" in reference
    requires given["width"] == reference["width"] == IntToString(width)
    requires given["height"] == reference["height"] == IntToString(height)
    ensures SvgRenderSize(given, reference) == Ok((width, height))
  {
    ParseIntOfString(width);
    ParseIntOfString(height);
  }

  /** An SVG file compared with itself never stops on a size mismatch: only
      a missing width or a non-decimal size can stop it. */
  lemma SvgSelfSize(attributes: map<string, string>)
    ensures SvgRenderSize(attributes, attributes).Ok? ||
            SvgRenderSize(attributes, attributes) == Err(KeyError("width")) ||
            SvgRenderSize(attributes, attributes).failure.ValueError?
  {
  }

  // ---------------------------------------------------------------------------
  // The readers and the dispatch.

  /** Both SVG files rasterised at the decided size, returned as
      (reference, candidate). */
  function ReadSvg<P>(file1: string, file2: string, dec: Decoders<P>): (r: Result<(Image<P>, Image<P>)>)
    ensures r.Err? <==> SvgRenderSize(dec.attributes(file1), dec.attributes(file2)).Err?
    ensures r.Err? ==> r.failure == SvgRenderSize(dec.attributes(file1), dec.attributes(file2)).failure
    ensures r.Ok? ==>
              var size := SvgRenderSize(dec.attributes(file1), dec.attributes(file2)).value;
              r.value == (dec.rasterise(file2, size.0, size.1), dec.rasterise(file1, size.0, size.1))
  {
    match SvgRenderSize(dec.attributes(file1), dec.attributes(file2))
    case Err(e) => Err(e)
    case Ok((width, height)) =>
      Ok((dec.rasterise(file2, width, height), dec.rasterise(file1, width, height)))
  }

  /** The two decoded PNG files, in order, when their sizes agree. */
  function ReadPng<P>(file1: string, file2: string, dec: Decoders<P>): (r: Result<(Image<P>, Image<P>)>)
    ensures r.Ok? <==> dec.open(file1).width == dec.open(file2).width && dec.open(file1).height == dec.open(file2).height
    ensures r.Ok? ==> r.value == (dec.open(file1), dec.open(file2))
    ensures r.Err? ==> r == Err(Exit(DifferentSize))
  {
    var pic1, pic2 := dec.open(file1), dec.open(file2);
    if (pic1.width, pic1.height) != (pic2.width, pic2.height) then Err(Exit(DifferentSize))
    else Ok((pic1, pic2))
  }

  /** The reader chosen by the two extensions. */
  function ReadImages<P>(file1: string, file2: string, dec: Decoders<P>): (r: Result<(Image<P>, Image<P>)>)
    ensures EndsWith(file1, ".svg") && EndsWith(file2, ".svg") ==> r == ReadSvg(file1, file2, dec)
    ensures !(EndsWith(file1, ".svg") && EndsWith(file2, ".svg")) && EndsWith(file1, ".png") && EndsWith(file2, ".png") ==>
              r == ReadPng(file1, file2, dec)
    ensures !(EndsWith(file1, ".svg") && EndsWith(file2, ".svg")) && !(EndsWith(file1, ".png") && EndsWith(file2, ".png")) ==>
              r == Err(Exit(ImagesNotSupported))
  {
    if EndsWith(file1, ".svg") && EndsWith(file2, ".svg") then ReadSvg(file1, file2, dec)
    else if EndsWith(file1, ".png") && EndsWith(file2, ".png") then ReadPng(file1, file2, dec)
    else Err(Exit(ImagesNotSupported))
  }

  /** What comparing two image files returns. */
  function ImagesVerdict<P(==)>(file1: string, file2: string, dec: Decoders<P>): Result<bool>
  {
    match ReadImages(file1, file2, dec)
    case Err(e) => Err(e)
    case Ok((pic1, pic2)) => Verdict(pic1, pic2)
  }

  /** Reads the two files with the reader their extensions select and
      compares what it returns pixel by pixel. */
  method CompareImages<P(==)>(file1: string, file2: string, dec: Decoders<P>) returns (r: Result<bool>)
    ensures r == ImagesVerdict(file1, file2, dec)
  {
    var pics := ReadImages(file1, file2, dec);
    if pics.Err? {
      return Err(pics.failure);
    }
    var pic1, pic2 := pics.value.0, pics.value.1;
    var mask, count;
    r, mask, count := ComparePillowImages(pic1, pic2);
  }

  // ---------------------------------------------------------------------------
  // What the verdict on files means.

  /** Handing the SVG pictures over swapped makes no difference: the answer
      is that of comparing the candidate with the reference. */
  lemma SvgSwapHarmless<P>(file1: string, file2: string, dec: Decoders<P>)
    requires EndsWith(file1, ".svg") && EndsWith(file2, ".svg")
    requires SvgRenderSize(dec.attributes(file1), dec.attributes(file2)).Ok?
    ensures var size := SvgRenderSize(dec.attributes(file1), dec.attributes(file2)).value;
            ImagesVerdict(file1, file2, dec) ==
              Verdict(dec.rasterise(file1, size.0, size.1), dec.rasterise(file2, size.0, size.1))
  {
    var size := SvgRenderSize(dec.attributes(file1), dec.attributes(file2)).value;
    VerdictSymmetric(dec.rasterise(file2, size.0, size.1), dec.rasterise(file1, size.0, size.1));
  }

  /** Two files are reported the same exactly when the selected reader
      succeeds and its two pictures have rows, columns, the same size and
      the same pixels. */
  lemma ImagesSame<P>(file1: string, file2: string, dec: Decoders<P>)
    ensures ImagesVerdict(file1, file2, dec) == Ok(true) <==>
              && ReadImages(file1, file2, dec).Ok?
              && var (pic1, pic2) := ReadImages(file1, file2, dec).value;
              && pic1.height == pic2.height > 0 && pic1.width == pic2.width > 0
              && forall i, j :: 0 <= i < pic1.height && 0 <= j < pic1.width ==>
                   pic1.pixels[i][j] == pic2.pixels[i][j]
  {
    var pics := ReadImages(file1, file2, dec);
    if pics.Ok? {
      VerdictSame(pics.value.0, pics.value.1);
    }
  }

  /** A PNG file with rows and columns compared with itself is the same. */
  lemma PngSelfSame<P>(file: string, dec: Decoders<P>)
    requires EndsWith(file, ".png")
    requires dec.open(file).height > 0 && dec.open(file).width > 0
    ensures ImagesVerdict(file, file, dec) == Ok(true)
  {
    assert !EndsWith(file, ".svg") by {
      assert file[|file| - 4..] == ".png";
    }
    VerdictReflexive(dec.open(file));
  }

  /** An SVG file whose size decision succeeds and whose rasterisation has
      rows and columns, compared with itself, is the same. */
  lemma SvgSelfSame<P>(file: string, dec: Decoders<P>)
    requires EndsWith(file, ".svg")
    requires SvgRenderSize(dec.attributes(file), dec.attributes(file)).Ok?
    requires var size := SvgRenderSize(dec.attributes(file), dec.attributes(file)).value;
             dec.rasterise(file, size.0, size.1).height > 0 && dec.rasterise(file, size.0, size.1).width > 0
    ensures ImagesVerdict(file, file, dec) == Ok(true)
  {
    var size := SvgRenderSize(dec.attributes(file), dec.attributes(file)).value;
    VerdictReflexive(dec.rasterise(file, size.0, size.1));
  }
}
