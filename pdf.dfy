/**
 * Turning a PDF into one PNG file per page. Loading the PDF library, parsing
 * the document and rendering a page are foreign calls: the model receives
 * their outcomes as inputs and keeps the loop over the pages and the naming
 * of the files.
 */
module PdfPages {
  import opened Wrappers
  import opened Files
  import Decimal

  const PdfErrorMessage: string := "Não foi possível processar o PDF"

  /** `name.split(".")[0]`: the text before the first '.', or all of it. */
  function BaseName(name: string): (base: string)
    ensures base <= name
    ensures '.' !in base
    ensures |base| < |name| ==> name[|base|] == '.'
  {
    if name == [] || name[0] == '.' then [] else [name[0]] + BaseName(name[1..])
  }

  /** The three shapes of name: several dots, no dot, a leading dot. */
  lemma BaseNameExamples()
    ensures BaseName("a.b.pdf") == "a"
    ensures BaseName("scan") == "scan"
    ensures BaseName(".pdf") == ""
  {
  }

  /** The base name is fixed by its three properties: there is only one. */
  lemma {:induction false} BaseNameUnique(name: string, base: string)
    requires base <= name && '.' !in base
    requires |base| < |name| ==> name[|base|] == '.'
    ensures base == BaseName(name)
  {
    if base != [] {
      assert base[0] == name[0];
      BaseNameUnique(name[1..], base[1..]);
    }
  }

  /**
   * The name given to the PNG file of page `page` (counted from 1): the
   * base name, `_page_`, a numeral that reads back as `page`, then `.png`.
   */
  function PageFileName(name: string, page: nat): (fileName: string)
    ensures var pre := BaseName(name) + "_page_";
      |fileName| >= |pre| + 5 && fileName[..|pre|] == pre && fileName[|fileName| - 4..] == ".png" &&
      Decimal.AllDigits(fileName[|pre|..|fileName| - 4]) && Decimal.ToNat(fileName[|pre|..|fileName| - 4]) == page
  {
    Decimal.NumeralBetween(BaseName(name) + "_page_", ".png", page);
    BaseName(name) + "_page_" + Decimal.FromNat(page) + ".png"
  }

  /** Different pages of one document get different file names. */
  lemma PageFileNamesDistinct(name: string, p: nat, q: nat)
    ensures PageFileName(name, p) == PageFileName(name, q) ==> p == q
  {
    Decimal.DelimitedInjective(BaseName(name) + "_page_", ".png", p, q);
  }

  /**
   * The conversion. `pageCount` is the number of pages of the parsed
   * document, or None when loading the library or the document failed;
   * `render(p)` is the PNG blob of page `p`, or None when getting or
   * rendering that page failed. Any failure becomes one error message.
   */
  method PdfToImage(file: File, pageCount: Option<nat>, render: nat -> Option<seq<byte>>)
    returns (r: Result<seq<File>, string>)
    ensures r.Failure? ==> r.error == PdfErrorMessage
    ensures r.Success? <==>
      pageCount.Some? && forall p :: 1 <= p <= pageCount.value ==> render(p).Some?
    ensures r.Success? ==> |r.value| == pageCount.value
    ensures r.Success? ==> forall k :: 0 <= k < |r.value| ==>
      r.value[k] == File(PageFileName(file.name, k + 1), PngType, render(k + 1).value)
    ensures r.Success? ==> forall j, k :: 0 <= j < k < |r.value| ==> r.value[j].name != r.value[k].name
  {
    if pageCount.None? {
      return Failure(PdfErrorMessage);
    }
    var numPages := pageCount.value;
    var images: seq<File> := [];
    var pdfPage := 1;
    while pdfPage <= numPages
      invariant 1 <= pdfPage <= numPages + 1
      invariant |images| == pdfPage - 1
      invariant forall p :: 1 <= p < pdfPage ==> render(p).Some?
      invariant forall k :: 0 <= k < |images| ==>
        images[k] == File(PageFileName(file.name, k + 1), PngType, render(k + 1).value)
    {
      var blob := render(pdfPage);
      if blob.None? {
        return Failure(PdfErrorMessage);
      }
      var imageFile := File(PageFileName(file.name, pdfPage), PngType, blob.value);
      images := images + [imageFile];
      pdfPage := pdfPage + 1;
    }
    forall j, k | 0 <= j < k < |images|
      ensures images[j].name != images[k].name
    {
      PageFileNamesDistinct(file.name, j + 1, k + 1);
    }
    return Success(images);
  }
}
