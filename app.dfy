/** One run of the page script: load the uploads, list the ticked thumbnails,
    and, when the button was pressed and there is at least one image, send the
    instruction, every image part and the user's query to the model and check
    its reply. The hosted model is passed in as a function `llm` from the
    request to its reply text. */
module App {
  import opened Text
  import opened Validator
  import opened Ingestion
  import opened Payload
  import opened Gallery

  const ModelName := "gemini-1.5-pro-002"

  /** The fixed instruction, with the line breaks and indentation of its
      triple-quoted literal. */
  const InputPrompt :=
    "\n               You are an expert in understanding invoices.\n"
    + "               You will receive input images as invoices &\n"
    + "               you will have to answer questions based on the input images\n"
    + "               "

  /** One element of the content list handed to the model. */
  datatype Content = TextContent(text: string) | ImageContent(part: ImagePart)

  datatype Request = Request(model: string, contents: seq<Content>)

  /** What the page shows below the button. */
  datatype Reply =
    | Idle                                          // button not pressed
    | UploadWarning                                 // pressed with no image
    | Answered(response: string, issues: seq<string>)

  /** The request `get_gemini_response` sends: the instruction, then every
      image part in order, then the query. */
  function GeminiRequest(instruction: string, parts: seq<ImagePart>, query: string): (req: Request)
    ensures req.model == ModelName
    ensures |req.contents| == |parts| + 2
    ensures req.contents[0] == TextContent(instruction)
    ensures req.contents[|parts| + 1] == TextContent(query)
    ensures forall i :: 0 <= i < |parts| ==> req.contents[i + 1] == ImageContent(parts[i])
  {
    Request(ModelName,
      [TextContent(instruction)]
      + seq(|parts|, i requires 0 <= i < |parts| => ImageContent(parts[i]))
      + [TextContent(query)])
  }

  /** What the page shows for the images it loaded. The checkbox selection is
      not an argument: the request is built from all images. */
  function ReplyFor<Img>(images: seq<Img>, submit: bool, query: string,
                         encodePng: Img -> seq<byte>, llm: Request -> string): (r: Reply)
    ensures r.Answered? <==> submit && |images| > 0
    ensures r.UploadWarning? <==> submit && |images| == 0
    ensures r.Idle? <==> !submit
    ensures r.Answered? ==> r.issues == ValidateInvoiceData(r.response) && |r.issues| <= 1
  {
    if submit && |images| > 0 then
      var response := llm(GeminiRequest(InputPrompt, ImageParts(images, encodePng), query));
      Answered(response, ValidateInvoiceData(response))
    else if submit then UploadWarning
    else Idle
  }

  /** The script, step by step, over its uploads, the checkbox state, the
      button and the query. */
  method RunScript<Img>(files: seq<UploadedFile>, toggled: map<nat, bool>, submit: bool, query: string,
                        rasterize: seq<byte> -> seq<Img>, open: seq<byte> -> Img,
                        encodePng: Img -> seq<byte>, llm: Request -> string)
    returns (images: seq<Img>, selectedImages: seq<nat>, reply: Reply)
    ensures images == AllPages(files, rasterize, open)
    ensures selectedImages == Selected(|images|, toggled)
    ensures reply == ReplyFor(images, submit, query, encodePng, llm)
  {
    images := LoadImages(files, rasterize, open);
    selectedImages := [];
    if |files| > 0 {
      selectedImages := SelectImages(|images|, toggled);
    }
    if submit && |images| > 0 {
      var imageData := InputImageSetup(images, encodePng);
      var response := llm(GeminiRequest(InputPrompt, imageData, query));
      var issues := CollectIssues(response);
      reply := Answered(response, issues);
    } else if submit {
      reply := UploadWarning;
    } else {
      reply := Idle;
    }
  }

  /** Pressing the button with at least one page gets an answer whose request
      carries one PNG part per page, page `k` of the uploads as part `k`, and
      whose warnings are those of the reply; with no page it gets the upload
      warning; untouched, nothing. */
  lemma {:induction false} SubmissionShape<Img>(files: seq<UploadedFile>, submit: bool, query: string,
                                                rasterize: seq<byte> -> seq<Img>, open: seq<byte> -> Img,
                                                encodePng: Img -> seq<byte>, llm: Request -> string)
    ensures var images := AllPages(files, rasterize, open);
      var reply := ReplyFor(images, submit, query, encodePng, llm);
      && (reply.Answered? <==> submit && TotalPages(files, rasterize) > 0)
      && (reply.UploadWarning? <==> submit && TotalPages(files, rasterize) == 0)
      && (reply.Idle? <==> !submit)
      && (reply.Answered? ==>
            var req := GeminiRequest(InputPrompt, ImageParts(images, encodePng), query);
            && reply.response == llm(req)
            && |reply.issues| <= 1
            && |req.contents| == TotalPages(files, rasterize) + 2
            && forall k :: 0 <= k < |images| ==>
                 req.contents[k + 1] == ImageContent(ImagePart(PngMime, encodePng(images[k]))))
  {
    AllPagesLength(files, rasterize, open);
  }
}
