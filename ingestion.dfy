/** Turning the uploaded files into one ordered list of page images. PDF
    rasterisation and image decoding are outside the model; they are passed in
    as functions (`rasterize` for the PDF converter, `open` for the image
    decoder) and the page images are of an opaque type `Img`. */
module Ingestion {

  newtype byte = x: int | 0 <= x < 256

  const PdfMime := "application/pdf"

  /** An uploaded file as the uploader hands it over: its MIME type and its bytes. */
  datatype UploadedFile = UploadedFile(mimeType: string, contents: seq<byte>)

  predicate IsPdf(f: UploadedFile) {
    f.mimeType == PdfMime
  }

  /** The pages one file contributes: the converter's pages for a PDF, the
      decoded image for anything else. */
  function PagesOf<Img>(f: UploadedFile, rasterize: seq<byte> -> seq<Img>, open: seq<byte> -> Img): seq<Img>
  {
    if IsPdf(f) then rasterize(f.contents) else [open(f.contents)]
  }

  /** How many pages one file contributes. */
  function PageCount<Img>(f: UploadedFile, rasterize: seq<byte> -> seq<Img>): nat
  {
    if IsPdf(f) then |rasterize(f.contents)| else 1
  }

  /** The pages of all files, file after file. */
  function AllPages<Img>(files: seq<UploadedFile>, rasterize: seq<byte> -> seq<Img>, open: seq<byte> -> Img): seq<Img>
  {
    if |files| == 0 then []
    else AllPages(files[..|files| - 1], rasterize, open) + PagesOf(files[|files| - 1], rasterize, open)
  }

  /** The sum of the per-file page counts. */
  function TotalPages<Img>(files: seq<UploadedFile>, rasterize: seq<byte> -> seq<Img>): nat
  {
    if |files| == 0 then 0
    else TotalPages(files[..|files| - 1], rasterize) + PageCount(files[|files| - 1], rasterize)
  }

  /** The upload loop: `images` grows by `extend` for a PDF and by `append`
      for an image, one file at a time in upload order. */
  method LoadImages<Img>(files: seq<UploadedFile>, rasterize: seq<byte> -> seq<Img>, open: seq<byte> -> Img)
    returns (images: seq<Img>)
    ensures images == AllPages(files, rasterize, open)
  {
    images := [];
    for i := 0 to |files|
      invariant images == AllPages(files[..i], rasterize, open)
    {
      var uploadedFile := files[i];
      if IsPdf(uploadedFile) {
        var pdfImages := rasterize(uploadedFile.contents);
        images := images + pdfImages;
      } else {
        var image := open(uploadedFile.contents);
        images := images + [image];
      }
      assert files[..i + 1][..i] == files[..i];
    }
    assert files[..|files|] == files;
  }

  /** The number of images is the sum of the per-file page counts. */
  lemma {:induction false} AllPagesLength<Img>(files: seq<UploadedFile>, rasterize: seq<byte> -> seq<Img>, open: seq<byte> -> Img)
    ensures |AllPages(files, rasterize, open)| == TotalPages(files, rasterize)
  {
    if |files| > 0 {
      AllPagesLength(files[..|files| - 1], rasterize, open);
    }
  }

  /** Uploading `a` then `b` gives the images of `a` followed by those of `b`. */
  lemma {:induction false} AllPagesAppend<Img>(a: seq<UploadedFile>, b: seq<UploadedFile>, rasterize: seq<byte> -> seq<Img>, open: seq<byte> -> Img)
    ensures AllPages(a + b, rasterize, open) == AllPages(a, rasterize, open) + AllPages(b, rasterize, open)
    decreases |b|
  {
    if |b| == 0 {
      assert a + b == a;
    } else {
      var b' := b[..|b| - 1];
      assert (a + b)[..|a + b| - 1] == a + b';
      AllPagesAppend(a, b', rasterize, open);
    }
  }

  /** File `k`'s pages sit, in their own order, between the pages of the files
      before it and those of the files after it; they start at the sum of the
      earlier files' page counts. */
  lemma FilePagesInPlace<Img>(files: seq<UploadedFile>, k: nat, rasterize: seq<byte> -> seq<Img>, open: seq<byte> -> Img)
    requires k < |files|
    ensures AllPages(files, rasterize, open) ==
      AllPages(files[..k], rasterize, open) + PagesOf(files[k], rasterize, open) + AllPages(files[k + 1..], rasterize, open)
    ensures |AllPages(files[..k], rasterize, open)| == TotalPages(files[..k], rasterize)
  {
    assert files == files[..k + 1] + files[k + 1..];
    AllPagesAppend(files[..k + 1], files[k + 1..], rasterize, open);
    assert files[..k + 1][..k] == files[..k];
    AllPagesLength(files[..k], rasterize, open);
  }

  /** Without PDFs every file contributes exactly its one decoded image. */
  lemma {:induction false} NoPdfOneImagePerFile<Img>(files: seq<UploadedFile>, rasterize: seq<byte> -> seq<Img>, open: seq<byte> -> Img)
    requires forall i :: 0 <= i < |files| ==> !IsPdf(files[i])
    ensures |AllPages(files, rasterize, open)| == |files|
    ensures forall i :: 0 <= i < |files| ==> AllPages(files, rasterize, open)[i] == open(files[i].contents)
  {
    if |files| > 0 {
      NoPdfOneImagePerFile(files[..|files| - 1], rasterize, open);
    }
  }
}
