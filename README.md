# Invoice extraction demo: a Dafny model of its page script

The application is a small web page. A user uploads invoices as PDFs or
images. The page turns them into one ordered list of page images and shows
them as a five-column grid of ticked or unticked thumbnails. On a button
press it sends a fixed instruction, every page as a PNG part, and the user's
query to a hosted multimodal model. Finally it runs two substring heuristics
on the reply text and shows any warnings.

This project models that logic, all of it in `app.py`:

- `Text`: the Python string built-ins the heuristics use. `str.lower` is
  modelled as ASCII folding. `pat in s` is `Contains`. `s.index(pat)` is
  `FirstIndex`, which returns `None` where Python would raise.
- `Validator`: `validate_invoice_data`. It is written once as a function and
  once as a method that appends to a list, as the source does.
- `Ingestion`: the upload loop. It flattens the files into pages: a PDF
  gives the converter's pages, any other file gives one decoded image.
- `Payload`: `input_image_setup`, one `{mime_type, data}` PNG part per image.
- `Gallery`: the thumbnail grid. Image `i` goes to column `i % 5`. It starts
  ticked iff `i < 3`. The list of ticked indices is built in order.
- `App`: one run of the script. It covers the request content list and the
  three outcomes: nothing, the upload warning, or an answer with its warnings.

The PDF converter, the image decoder, the PNG encoder and the hosted model
are function parameters (`rasterize`, `open`, `encodePng`, `llm`). The model
therefore says nothing about what they compute. It only fixes how their
results are arranged.

Behaviour the model records:

- The request is built from all loaded images, never from the ticked ones.
  `App.ReplyFor` takes no selection, and `App.RunScript` proves that the
  script's reply is `ReplyFor` of the images. The checkboxes only choose what
  is displayed larger.
- The `"total amount"` test in the first rule never matters, because any text
  containing `"total amount"` contains `"total"` (`Validator.TotalAmountSubsumed`).
- At most one warning is ever returned. The first rule needs `"total"` to be
  absent and the second needs it to be present.
- Both `.index` calls are made only after both substrings were found, so
  they always succeed. In the model, `.value` is read only on `Some`.

Three edge behaviours of the code, as the code has them:

- The code has no unsupported-format error. Every file whose MIME type is
  not `application/pdf` goes to the image decoder.
- A PDF whose converter returns no pages adds nothing. It does not fail.
- Extraction with no pages is not an error of the client. The script checks
  `images` before calling and shows an upload warning instead (`UploadWarning`).

## Model

| member | source | states |
|---|---|---|
| Text.Lower | app.py:33 | lowercasing keeps the length, leaves no upper-case ASCII letter, and changes only the upper-case letters, each to its lower-case partner |
| Text.LowerIdempotent | app.py:33 | lowercasing already-lowercased text changes nothing |
| Text.FirstIndex | app.py:48-49 | `s.index(pat)` finds something iff `pat` occurs in `s`, and what it finds is the first occurrence |
| Text.Contains | app.py:46 | `pat in s` holds iff `pat` occurs in `s` at some position |
| Text.ContainsPrefix | app.py:42 | text that contains a string contains every prefix of that string |
| Validator.ValidateInvoiceData | app.py:31-53 | the result has at most one warning, and every warning is one of the two messages |
| Validator.CollectIssues | app.py:31-53 | the append-by-append version returns exactly the warnings of `ValidateInvoiceData` |
| Validator.TotalAmountSubsumed | app.py:42-43 | "neither total amount nor total" is the same condition as "no total" |
| Validator.MissingTotalIff | app.py:42-43 | "Total amount might be unclear" is returned iff the lowercased reply has no occurrence of "total" |
| Validator.MismatchIff | app.py:46-51 | "Potential mismatch between total and line items" is returned iff the lowercased reply's first "total" starts before its first "line item" |
| Validator.Outcome | app.py:42-53 | the result is exactly the missing-total warning when there is no "total", the mismatch warning when the first "total" precedes the first "line item", and empty otherwise |
| Validator.CaseInsensitive | app.py:33 | validating the lowercased reply gives the same warnings as validating the reply |
| Validator.EmptyReply | app.py:42-43 | the empty reply yields exactly the missing-total warning |
| Validator.LineItemFirstNoWarning | app.py:46-53 | a reply with "total" whose first "line item" comes before every "total" yields no warning |
| Validator.TotalFirstExample | app.py:46-51 | "Total: 100, Line Item: paper" yields exactly the mismatch warning |
| Validator.LineItemFirstExample | app.py:46-53 | "Line Item: paper, Total: 100" yields no warning |
| Validator.NoTotalExample | app.py:42-43 | "Thank you for your purchase" yields exactly the missing-total warning |
| Ingestion.LoadImages | app.py:63-71 | the loop's final list is the pages of every file, file after file: the converter's pages for a PDF, one decoded image otherwise |
| Ingestion.AllPagesLength | app.py:63-71 | the number of images is the sum of the per-file page counts |
| Ingestion.AllPagesAppend | app.py:65-71 | loading two batches of files gives the first batch's images followed by the second's |
| Ingestion.FilePagesInPlace | app.py:65-71 | file k's pages appear, in their order, right after the pages of the files before it, starting at the sum of those files' page counts |
| Ingestion.NoPdfOneImagePerFile | app.py:69-71 | without PDFs there is exactly one image per file, image i decoded from file i |
| Payload.ImageParts | app.py:21-30 | one part per image, in order, each tagged "image/png" and carrying the encoding of its image |
| Payload.InputImageSetup | app.py:21-30 | the loop returns exactly `ImageParts` of its images |
| Payload.ImagePartsAppend | app.py:23-29 | the parts of a concatenation are the parts of each half, concatenated |
| Payload.SameImageSamePart | app.py:24-28 | equal images get equal parts; this holds because the model makes the encoder a function, so PNG determinism is assumed, not proved |
| Gallery.ColumnOf | app.py:74-77 | the column lies in [0, 5), and image i sits in row i / 5 at that column |
| Gallery.SelectImages | app.py:75-82 | the loop returns the ticked indices, scanned in order |
| Gallery.SelectedMembers | app.py:80-82 | an index is listed iff it is an image index and its checkbox is ticked: the user's value, else ticked iff the index is below 3 |
| Gallery.SelectedIncreasing | app.py:76-82 | the listed indices are strictly increasing and all below the number of images |
| Gallery.DefaultSelection | app.py:61-82 | with no user input, the listed indices are 0 up to min(n, 3) |
| App.GeminiRequest | app.py:16-19 | the content list is the instruction, then every image part in order, then the query, for the fixed model name |
| App.ReplyFor | app.py:97-116 | an answer comes iff the button was pressed and there is an image, the upload warning iff it was pressed with none, nothing iff it was not pressed; an answer's warnings are the validator's for its reply, at most one (the page-count form is `App.SubmissionShape`) |
| App.RunScript | app.py:63-116 | the script's images are the flattened uploads, its list is the ticked indices, and its reply is `ReplyFor` of all images; the reply does not depend on the checkbox state |
| App.SubmissionShape | app.py:97-116 | an answer comes iff the button was pressed and there is at least one page, and an upload warning iff it was pressed with none; an answer's request holds one PNG part per page, in order, and its warnings number at most one |

## Left out

- Unicode lowercasing: `str.lower` is modelled for ASCII letters only. Full Unicode folding can change the length of a string.
- The PDF converter (`converter.py`): its temporary file, the external rasteriser and the file deletion are I/O. Its output is the opaque page list `rasterize` returns.
- Image decoding and PNG encoding are library calls. They are the parameters `open` and `encodePng`, over an opaque image type.
- Failures of the decoder, the converter, the PNG encoder (app.py:25, which raises for image modes PNG cannot store) or the model call: the source lets them raise out of the script. The model treats all four as total functions.
- `get_gemini_response`'s network call and the API-key loading (app.py:11-14) are left out. The hosted model is the parameter `llm` from the request to its text.
- Rendering is left out: headers, the grid widgets, thumbnail copying and resizing (app.py:78-79), `st.image` for thumbnails and for selected images, and the success or warning messages around the issue list.
- The uploader's accepted-extension filter is a UI setting. The model accepts any file and branches on the MIME type, as the loop does.
