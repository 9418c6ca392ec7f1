/**
 * The monochrome filter: every pixel of an RGBA buffer is set to one of
 * three grey levels by the sum of its red, green and blue bytes, and each
 * filtered image yields a data URL and, when the canvas produces a blob, a
 * PNG file.
 */
module MonochromeFilter {
  import opened Wrappers
  import opened Files
  import Decimal

  /*** The grey levels ***/

  /**
   * The number the pixel loop chooses for a channel, doubled so that the
   * middle band, the JavaScript number 127.5, is the integer 255.
   */
  function ColourTwice(sum: int): int {
    if sum > 510 then 510 else if sum > 255 then 255 else 0
  }

  /**
   * ToUint8Clamp (ECMA-262, section 7.1.12) of the number h / 2: the
   * conversion a `Uint8ClampedArray` applies to every value stored in it.
   * It clamps to 0..255 and rounds to the nearest integer, ties to even.
   */
  function ClampHalf(h: int): (r: byte)
    ensures h <= 0 ==> r == 0
    ensures h >= 510 ==> r == 255
    ensures 0 < h < 510 ==> -1 <= 2 * r - h <= 1
    ensures 0 < h < 510 && h % 2 == 1 ==> r % 2 == 0
  {
    if h <= 0 then 0
    else if h >= 510 then 255
    else if h % 2 == 0 then h / 2
    else if (h / 2) % 2 == 0 then h / 2
    else h / 2 + 1
  }

  /** The grey level given to a pixel whose R+G+B is `sum`. */
  function Level(sum: int): byte {
    if sum > 510 then 255 else if sum > 255 then 128 else 0
  }

  /**
   * The level is what the clamped array stores for the number the loop
   * assigns: 0, 255, and 127.5 rounded to the even neighbour, 128.
   */
  lemma LevelIsStoredColour(sum: int)
    ensures Level(sum) == ClampHalf(ColourTwice(sum))
  {
    if 255 < sum <= 510 {
      assert ColourTwice(sum) == 255;
    }
  }

  /** The boundary pixels: black (sum 0), white (sum 765) and sum 383. */
  lemma LevelBoundaries()
    ensures ClampHalf(ColourTwice(0)) == 0
    ensures ClampHalf(ColourTwice(765)) == 255
    ensures ClampHalf(ColourTwice(383)) == 128
  {
    LevelIsStoredColour(0);
    LevelIsStoredColour(765);
    LevelIsStoredColour(383);
  }

  /** A brighter pixel is never given a darker level. */
  lemma LevelMonotone(s1: int, s2: int)
    requires s1 <= s2
    ensures Level(s1) <= Level(s2)
  {
  }

  /** A grey pixel at an output level keeps that level. */
  lemma LevelFixedPoint(sum: int)
    ensures Level(3 * Level(sum)) == Level(sum)
  {
  }

  /*** The pixel pass as a function of the buffer ***/

  /** Whether `p` is the index of the red byte of a whole pixel of `s`. */
  predicate IsPixel(s: seq<byte>, p: int) {
    0 <= p && p % 4 == 0 && p + 3 < |s|
  }

  function PixelSum(s: seq<byte>, p: int): int
    requires IsPixel(s, p)
  {
    s[p] as int + s[p + 1] as int + s[p + 2] as int
  }

  /** The four bytes a pixel with colour bytes `r`, `g`, `b` is given. */
  function GreyPixel(r: byte, g: byte, b: byte): seq<byte> {
    var v := Level(r as int + g as int + b as int);
    [v, v, v, 255]
  }

  /**
   * The buffer after the pixel pass, pixel by pixel. An `ImageData` buffer
   * holds whole pixels (four bytes each), so its length is a multiple of 4.
   */
  function Filtered(s: seq<byte>): (r: seq<byte>)
    requires |s| % 4 == 0
    ensures |r| == |s|
    decreases |s|
  {
    if |s| == 0 then [] else GreyPixel(s[0], s[1], s[2]) + Filtered(s[4..])
  }

  /** The pass treats the pixels of two halves of a buffer independently. */
  lemma {:induction false} FilteredAppend(a: seq<byte>, b: seq<byte>)
    requires |a| % 4 == 0 && |b| % 4 == 0
    ensures Filtered(a + b) == Filtered(a) + Filtered(b)
    decreases |a|
  {
    if |a| == 0 {
      assert a + b == b;
    } else {
      var g := GreyPixel(a[0], a[1], a[2]);
      assert Filtered(a + b) == g + Filtered(a[4..] + b) by {
        var ab := a + b;
        assert ab[0] == a[0] && ab[1] == a[1] && ab[2] == a[2];
        assert ab[4..] == a[4..] + b;
      }
      FilteredAppend(a[4..], b);
      assert g + (Filtered(a[4..]) + Filtered(b)) == (g + Filtered(a[4..])) + Filtered(b);
    }
  }

  /**
   * Each pixel becomes grey (R = G = B) at the level of its own sum, fully
   * opaque; so its output depends on its own bytes only.
   */
  lemma {:induction false} FilteredPixel(s: seq<byte>, p: int)
    requires |s| % 4 == 0 && IsPixel(s, p)
    ensures var r := Filtered(s);
      r[p] == r[p + 1] == r[p + 2] == Level(PixelSum(s, p)) && r[p + 3] == 255
    decreases p
  {
    if p > 0 {
      FilteredPixel(s[4..], p - 4);
    }
  }

  /** Filtering a filtered buffer changes nothing. */
  lemma {:induction false} FilteredIdempotent(s: seq<byte>)
    requires |s| % 4 == 0
    ensures Filtered(Filtered(s)) == Filtered(s)
    decreases |s|
  {
    if |s| > 0 {
      var g := GreyPixel(s[0], s[1], s[2]);
      FilteredAppend(g, Filtered(s[4..]));
      LevelFixedPoint(PixelSum(s, 0));
      assert Filtered(g) == g by {
        assert g[4..] == [];
      }
      FilteredIdempotent(s[4..]);
    }
  }

  /*** The pixel pass in place ***/

  /** One step of the loop: the pixel at `i` and no other byte is rewritten. */
  method ThresholdPixel(data: array<byte>, i: int)
    requires IsPixel(data[..], i)
    modifies data
    ensures data[i] == data[i + 1] == data[i + 2] == Level(old(PixelSum(data[..], i)))
    ensures data[i + 3] == 255
    ensures forall k :: 0 <= k < data.Length && !(i <= k < i + 4) ==> data[k] == old(data[k])
  {
    var count := data[i] as int + data[i + 1] as int + data[i + 2] as int;
    var colourTwice := 0;
    if count > 510 {
      colourTwice := 510;
    } else if count > 255 {
      colourTwice := 255;
    }
    // the store into the clamped array converts the number
    LevelIsStoredColour(count);
    data[i] := ClampHalf(colourTwice);
    data[i + 1] := ClampHalf(colourTwice);
    data[i + 2] := ClampHalf(colourTwice);
    data[i + 3] := 255;
  }

  /** In a buffer of whole pixels, a pixel that starts inside it ends inside it. */
  lemma WholePixelAt(n: int, i: int)
    requires n % 4 == 0 && i % 4 == 0 && 0 <= i < n
    ensures i + 3 < n
  {
  }

  /** Filtering one more pixel of a prefix appends that pixel's grey bytes. */
  lemma FilteredExtend(s: seq<byte>, i: int)
    requires 0 <= i && i % 4 == 0 && i + 4 <= |s|
    ensures Filtered(s[..i + 4]) == Filtered(s[..i]) + GreyPixel(s[i], s[i + 1], s[i + 2])
  {
    var pixel := s[i..i + 4];
    assert Filtered(pixel) == GreyPixel(s[i], s[i + 1], s[i + 2]) by {
      assert pixel[4..] == [];
    }
    assert s[..i + 4] == s[..i] + pixel;
    FilteredAppend(s[..i], pixel);
  }

  /**
   * One loop step keeps the loop's invariant: when the bytes before pixel
   * `i` are filtered and the rest untouched, rewriting pixel `i` alone
   * extends the filtered part by one pixel.
   */
  lemma PixelStep(orig: seq<byte>, before: seq<byte>, after: seq<byte>, i: int)
    requires |before| == |orig| == |after| && 0 <= i && i % 4 == 0 && i + 4 <= |orig|
    requires before[..i] == Filtered(orig[..i]) && before[i..] == orig[i..]
    requires forall k :: 0 <= k < |after| && !(i <= k < i + 4) ==> after[k] == before[k]
    requires after[i] == after[i + 1] == after[i + 2] == Level(PixelSum(before, i)) && after[i + 3] == 255
    ensures after[..i + 4] == Filtered(orig[..i + 4]) && after[i + 4..] == orig[i + 4..]
  {
    assert before[i] == orig[i] && before[i + 1] == orig[i + 1] && before[i + 2] == orig[i + 2] by {
      assert before[i..][0] == orig[i..][0] && before[i..][1] == orig[i..][1] && before[i..][2] == orig[i..][2];
    }
    FilteredExtend(orig, i);
    assert after[..i] == before[..i];
    assert after[..i + 4] == after[..i] + after[i..i + 4];
    assert after[i + 4..] == before[i + 4..];
    assert before[i + 4..] == before[i..][4..];
  }

  /** The loop over every pixel of one image, in steps of four bytes. */
  method ApplyThreshold(data: array<byte>)
    requires data.Length % 4 == 0
    modifies data
    ensures data[..] == Filtered(old(data[..]))
  {
    ghost var orig := data[..];
    var i := 0;
    while i < data.Length
      invariant 0 <= i <= data.Length && i % 4 == 0
      invariant data[..i] == Filtered(orig[..i])
      invariant data[i..] == orig[i..]
    {
      WholePixelAt(data.Length, i);
      ghost var before := data[..];
      ThresholdPixel(data, i);
      PixelStep(orig, before, data[..], i);
      i := i + 4;
    }
    assert data[..] == data[..i] && orig == orig[..i];
  }

  /*** The filter over a list of images ***/

  /**
   * The canvas once an image is drawn on it: its size (the image's), whether
   * the image came from another origin and so taints it, and its RGBA bytes.
   */
  datatype Canvas = Canvas(width: nat, height: nat, tainted: bool, data: seq<byte>)

  /** The canvas holds whole RGBA pixels, four bytes each. */
  predicate HoldsItsPixels(c: Canvas) {
    |c.data| % 4 == 0
  }

  predicate WholePixels(images: seq<Canvas>) {
    forall k :: 0 <= k < |images| ==> HoldsItsPixels(images[k])
  }

  /**
   * `getImageData` over the whole canvas succeeds: it throws a SecurityError
   * on a tainted canvas and an IndexSizeError when the width or the height
   * is 0.
   */
  predicate Readable(c: Canvas) {
    !c.tainted && c.width > 0 && c.height > 0
  }

  /** The canvas after the filtered pixels are put back into it. */
  function Painted(c: Canvas): Canvas
    requires HoldsItsPixels(c)
  {
    c.(data := Filtered(c.data))
  }

  /** Why the filter rejects: no 2D context, or image `index` cannot be read back. */
  datatype FilterError = NoContext(message: string) | PixelsUnreadable(index: nat)

  datatype FilterOutput = FilterOutput(filteredUrls: seq<string>, filteredFiles: seq<File>)

  const NoContextMessage: string := "Não foi possível criar contexto do canvas"

  /** The name of the file made from the image at (0-based) index `k`. */
  function FilteredName(k: nat): string {
    "filtered_page_" + Decimal.FromNat(k + 1) + ".png"
  }

  /** The name is `filtered_page_`, then a numeral that reads back as `k + 1`, then `.png`. */
  lemma FilteredNameParts(k: nat)
    ensures var name := FilteredName(k);
      |name| >= 19 && name[..14] == "filtered_page_" && name[|name| - 4..] == ".png" &&
      Decimal.AllDigits(name[14..|name| - 4]) && Decimal.ToNat(name[14..|name| - 4]) == k + 1
  {
    Decimal.NumeralBetween("filtered_page_", ".png", k + 1);
  }

  lemma FilteredNamesDistinct(j: nat, k: nat)
    ensures FilteredName(j) == FilteredName(k) ==> j == k
  {
    Decimal.DelimitedInjective("filtered_page_", ".png", j + 1, k + 1);
  }

  /**
   * What the canvas's `toBlob` yields for each image once it holds the
   * filtered pixels: a blob, or None for a null blob.
   */
  function Blobs(images: seq<Canvas>, toBlob: Canvas -> Option<seq<byte>>): (blobs: seq<Option<seq<byte>>>)
    requires WholePixels(images)
    ensures |blobs| == |images|
    ensures forall k :: 0 <= k < |images| ==> blobs[k] == toBlob(Painted(images[k]))
  {
    if images == [] then [] else [toBlob(Painted(images[0]))] + Blobs(images[1..], toBlob)
  }

  /**
   * The files made for the first `n` images: one for each image whose
   * filtered canvas yields a blob, in the order of the images.
   */
  function KeptFiles(blobs: seq<Option<seq<byte>>>, n: nat): seq<File>
    requires n <= |blobs|
  {
    if n == 0 then []
    else
      KeptFiles(blobs, n - 1) +
      match blobs[n - 1]
      case None => []
      case Some(blob) => [File(FilteredName(n - 1), PngType, blob)]
  }

  /** There are never more files than images. */
  lemma {:induction false} KeptFilesBound(blobs: seq<Option<seq<byte>>>, n: nat)
    requires n <= |blobs|
    ensures |KeptFiles(blobs, n)| <= n
  {
    if n > 0 {
      KeptFilesBound(blobs, n - 1);
    }
  }

  /**
   * The indices below `n` of the images whose filtered canvas yields a blob,
   * in increasing order: every such index, and no other, appears once.
   */
  function WithBlob(blobs: seq<Option<seq<byte>>>, n: nat): (ks: seq<nat>)
    requires n <= |blobs|
    ensures forall j :: 0 <= j < |ks| ==> ks[j] < n && blobs[ks[j]].Some?
    ensures forall i, j :: 0 <= i < j < |ks| ==> ks[i] < ks[j]
    ensures forall k :: 0 <= k < n && blobs[k].Some? ==> k in ks
  {
    if n == 0 then []
    else WithBlob(blobs, n - 1) + if blobs[n - 1].Some? then [n - 1] else []
  }

  /**
   * File `j` is made from the `j`-th image that has a blob: it is named
   * after that image's index, is a PNG and holds that image's blob.
   */
  lemma {:induction false} KeptFilesInOrder(blobs: seq<Option<seq<byte>>>, n: nat)
    requires n <= |blobs|
    ensures var files, ks := KeptFiles(blobs, n), WithBlob(blobs, n);
      |files| == |ks| &&
      forall j :: 0 <= j < |ks| ==> files[j] == File(FilteredName(ks[j]), PngType, blobs[ks[j]].value)
  {
    if n > 0 {
      KeptFilesInOrder(blobs, n - 1);
    }
  }

  /** When every blob exists, file `k` is the one made from image `k`. */
  lemma {:induction false} KeptFilesAll(blobs: seq<Option<seq<byte>>>, n: nat)
    requires n <= |blobs|
    requires forall k :: 0 <= k < n ==> blobs[k].Some?
    ensures |KeptFiles(blobs, n)| == n
    ensures forall k :: 0 <= k < n ==> KeptFiles(blobs, n)[k] == File(FilteredName(k), PngType, blobs[k].value)
  {
    if n > 0 {
      KeptFilesAll(blobs, n - 1);
    }
  }

  /** The first `n` images can all be read back. */
  predicate ReadableUpTo(images: seq<Canvas>, n: nat)
    requires n <= |images|
  {
    forall k :: 0 <= k < n ==> Readable(images[k])
  }

  /** `urls` holds, in order, the data URL of each of the first `n` filtered canvases. */
  predicate UrlsOf(urls: seq<string>, images: seq<Canvas>, toDataUrl: Canvas -> string, n: nat)
    requires WholePixels(images) && n <= |images|
  {
    |urls| == n && forall k :: 0 <= k < n ==> urls[k] == toDataUrl(Painted(images[k]))
  }

  /**
   * One image's pass: `getImageData` copies the pixels out, the loop filters
   * the copy in place, and `putImageData` writes it back to the canvas.
   */
  method FilterCanvas(canvas: Canvas) returns (painted: Canvas)
    requires HoldsItsPixels(canvas)
    ensures painted == Painted(canvas)
  {
    var pixels := canvas.data;
    var data := new byte[|pixels|](j requires 0 <= j < |pixels| => pixels[j]);
    assert data[..] == pixels;
    ApplyThreshold(data);
    painted := canvas.(data := data[..]);
  }

  /**
   * The filter over a list of images. `images[k]` is the canvas once image
   * `k` is loaded and drawn; `toDataUrl` and `toBlob` are the canvas
   * encoders, applied to the canvas holding the filtered pixels;
   * `hasContext` says whether the canvas gave a 2D context. Reading the
   * pixels of an unreadable canvas rejects the whole run, and the URLs
   * made so far are lost.
   */
  method ApplyBlackWhiteFilter(
    images: seq<Canvas>,
    hasContext: bool,
    toDataUrl: Canvas -> string,
    toBlob: Canvas -> Option<seq<byte>>
  ) returns (r: Result<FilterOutput, FilterError>)
    requires WholePixels(images)
    ensures r.Success? <==> hasContext && ReadableUpTo(images, |images|)
    ensures r.Failure? && r.error.NoContext? <==> !hasContext
    ensures r.Failure? && r.error.NoContext? ==> r.error.message == NoContextMessage
    ensures r.Failure? && r.error.PixelsUnreadable? ==>
      var k := r.error.index;
      k < |images| && !Readable(images[k]) && ReadableUpTo(images, k)
    ensures r.Success? ==> UrlsOf(r.value.filteredUrls, images, toDataUrl, |images|)
    ensures r.Success? ==> r.value.filteredFiles == KeptFiles(Blobs(images, toBlob), |images|)
    ensures r.Success? ==> |r.value.filteredFiles| <= |r.value.filteredUrls|
    ensures r.Success? ==>
      var files, ks := r.value.filteredFiles, WithBlob(Blobs(images, toBlob), |images|);
      |files| == |ks| &&
      forall j :: 0 <= j < |ks| ==>
        files[j] == File(FilteredName(ks[j]), PngType, toBlob(Painted(images[ks[j]])).value)
  {
    if !hasContext {
      return Failure(NoContext(NoContextMessage));
    }
    ghost var blobs := Blobs(images, toBlob);
    var filteredUrls: seq<string> := [];
    var filteredFiles: seq<File> := [];
    var imgIdx := 0;
    while imgIdx < |images|
      invariant 0 <= imgIdx <= |images|
      invariant ReadableUpTo(images, imgIdx)
      invariant UrlsOf(filteredUrls, images, toDataUrl, imgIdx)
      invariant filteredFiles == KeptFiles(blobs, imgIdx)
    {
      var canvas := images[imgIdx];
      if !Readable(canvas) {
        return Failure(PixelsUnreadable(imgIdx));
      }
      var painted := FilterCanvas(canvas);
      var url := toDataUrl(painted);
      assert UrlsOf(filteredUrls + [url], images, toDataUrl, imgIdx + 1) by {
        assert forall k :: 0 <= k < imgIdx ==> (filteredUrls + [url])[k] == filteredUrls[k];
      }
      filteredUrls := filteredUrls + [url];
      var blob := toBlob(painted);
      ghost var files := filteredFiles;
      if blob.Some? {
        filteredFiles := filteredFiles + [File(FilteredName(imgIdx), PngType, blob.value)];
      }
      assert filteredFiles == KeptFiles(blobs, imgIdx + 1) by {
        assert blobs[imgIdx] == blob;
        assert files == KeptFiles(blobs, imgIdx);
      }
      imgIdx := imgIdx + 1;
    }
    KeptFilesBound(blobs, |images|);
    KeptFilesInOrder(blobs, |images|);
    return Success(FilterOutput(filteredUrls, filteredFiles));
  }
}
