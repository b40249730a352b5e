/** Shaping page images into the image parts sent to the model
    (`input_image_setup`). The PNG encoder is outside the model and passed in
    as a function `encodePng`; being a function, it gives the same bytes for
    the same image. */
module Payload {
  import opened Ingestion

  const PngMime := "image/png"

  /** One `{mime_type, data}` part of the request. */
  datatype ImagePart = ImagePart(mimeType: string, data: seq<byte>)

  /** The parts for a list of images, one per image, in order. */
  function ImageParts<Img>(images: seq<Img>, encodePng: Img -> seq<byte>): (parts: seq<ImagePart>)
    ensures |parts| == |images|
    ensures forall i :: 0 <= i < |images| ==> parts[i].mimeType == PngMime
    ensures forall i :: 0 <= i < |images| ==> parts[i].data == encodePng(images[i])
  {
    if |images| == 0 then []
    else ImageParts(images[..|images| - 1], encodePng) + [ImagePart(PngMime, encodePng(images[|images| - 1]))]
  }

  /** The source's loop: encode each image and append its part. */
  method InputImageSetup<Img>(images: seq<Img>, encodePng: Img -> seq<byte>) returns (imageParts: seq<ImagePart>)
    ensures imageParts == ImageParts(images, encodePng)
  {
    imageParts := [];
    for i := 0 to |images|
      invariant |imageParts| == i
      invariant forall k :: 0 <= k < i ==> imageParts[k] == ImagePart(PngMime, encodePng(images[k]))
    {
      var buffered := encodePng(images[i]);
      imageParts := imageParts + [ImagePart(PngMime, buffered)];
    }
  }

  /** Encoding a concatenation encodes each half. */
  lemma ImagePartsAppend<Img>(a: seq<Img>, b: seq<Img>, encodePng: Img -> seq<byte>)
    ensures ImageParts(a + b, encodePng) == ImageParts(a, encodePng) + ImageParts(b, encodePng)
  {
    var whole, left, right := ImageParts(a + b, encodePng), ImageParts(a, encodePng), ImageParts(b, encodePng);
    assert forall i :: 0 <= i < |b| ==> whole[|a| + i] == right[i];
  }

  /** Equal images give equal parts, wherever they stand in the list. This
      rests on the modelling choice that the encoder is a function: the model
      assumes, and does not prove, that PNG encoding is deterministic. */
  lemma SameImageSamePart<Img>(images: seq<Img>, encodePng: Img -> seq<byte>, i: nat, j: nat)
    requires i < |images| && j < |images| && images[i] == images[j]
    ensures ImageParts(images, encodePng)[i] == ImageParts(images, encodePng)[j]
  {
  }
}
