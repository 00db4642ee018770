# Document text extraction: classification and routing

A Dafny model of the decision logic of a small Node.js tool that pulls plain
text out of a document. An image is sent straight to OCR (Tesseract). A PDF
with a text layer is read with pdf-parse. A PDF without one is rasterized
(pdf-poppler / pdftoppm) and the page images are OCR'd. The repository holds
three variants, and each is modelled in its own module:

- `ocr_express.js`, the upload server (`ExpressServer`). `extractTextFromFile`
  resolves with the text or throws. The `/upload` handler turns the outcome
  into a status code and a body.
- `simple_text_based/ocr.js`, the command-line script (`SimpleCli`). It has
  the same decision tree, but it returns nothing: any text found is reported
  and every error is caught.
- `image_with_text_based/ocr_node.js`, whole-document OCR (`PageOcr`).
  `processPdf` rasterizes all pages and lists the output directory. It then
  OCRs every `.png` in listing order and appends each page's text plus a
  newline to one accumulator.

The two shared predicates, `isImageFile` and `isTextBasedPDF`, are written
identically in the first two files. They are defined once, in
`Classification`, together with a reference classification stated
independently of them. That reference looks at the tail of the file name and
at whether the text layer has a visible character.
`Paths` gives Node's POSIX `path.extname` and `path.join` and JavaScript's
`toLowerCase` and `trim`.

The external tools are oracles bundled in `External.Tools`:

- `parsePdf`: readFileSync plus pdf-parse, giving `Parsed(text)` or `ParseError`.
- `convert`: pdf-poppler or pdftoppm, giving success or failure.
- `listDir`: readdirSync.
- `recognize`: Tesseract.

Every router returns the sequence of tool calls it made (`External.Call`).
This lets the model state which capability each branch invokes, and which it
never invokes.

None of the three modelled files has a page-break separator, a sort by page
index, a worker pool, a per-job working directory, a cleanup of the
rasterized pages or an "all pages failed" error, and the model has none of
these either.

## Model

| member | source | states |
|---|---|---|
| `Paths.ExtName` | ocr_express.js:20 | `path.extname`; its contract is stated by `Paths.ExtNameShape` and `Paths.ExtNameIff` |
| `Paths.ExtNameIff` | ocr_express.js:84 | `path.extname` returns an extension `e` of two or more characters exactly when the path, without trailing slashes, ends with `e` and the character before `e` exists and is not `/` |
| `Paths.ExtNameShape` | ocr_express.js:120 | `path.extname` gives either the empty string or a `.` followed by characters that are neither `.` nor `/` |
| `Paths.Lower` | ocr_express.js:20 | `toLowerCase` on ASCII letters; carried through `extname` by `Paths.LowerExtNameIff` |
| `Paths.Join` | ocr_express.js:60 | `path.join(dir, name)` without normalisation: an empty `dir` gives `name`; a `dir` ending in `/` gives `dir + name`; any other `dir` gives `dir + "/" + name`; a non-empty `name` never gives an empty path |
| `Paths.JoinKeepsExtension` | image_with_text_based/ocr_node.js:44 | joining the output directory and a listed file name leaves that name as the last component, so the joined path keeps the name's extension |
| `Paths.Trim` | ocr_express.js:29 | `trim`; its contract is stated by `Paths.TrimNonEmptyIff` |
| `Paths.LowerExtNameIff` | ocr_express.js:20 | the lower-cased extension equals a lower-case extension `e` exactly when the lower-cased, slash-trimmed path ends with `e` inside a non-empty last component |
| `Paths.TrimNonEmptyIff` | ocr_express.js:29 | `text.trim()` is non-empty exactly when the text has a character that is neither ECMAScript whitespace nor a line terminator |
| `Classification.IsImageFile` | ocr_express.js:19-22 | `isImageFile`; characterised by `Classification.ImageFileIff` |
| `Classification.IsPdfFile` | ocr_express.js:84-91 | the routers' lower-cased `extname` test against `.pdf`; characterised by `Classification.PdfFileIff` |
| `Classification.IsTextBasedPdf` | ocr_express.js:25-34 | `isTextBasedPDF`; characterised by `Classification.TextBasedIff` |
| `Classification.ImageFileIff` | ocr_express.js:19-22 | `isImageFile` holds exactly when the name ends, in any letter case, with `.png`, `.jpg`, `.jpeg`, `.bmp` or `.gif` inside a non-empty last component |
| `Classification.PdfFileIff` | ocr_express.js:91 | the router's `.pdf` test holds exactly when the name ends with `.pdf` in any letter case inside a non-empty last component |
| `Classification.TextBasedIff` | simple_text_based/ocr.js:14-23 | `isTextBasedPDF` is true exactly when the PDF parsed and its text has a visible character; a whitespace-only layer and a read or parse error both give false rather than an error |
| `Classification.DecisionTreeClassifies` | simple_text_based/ocr.js:72-94 | the router's tree gives the reference classification: image test first, then the `.pdf` test, then the text-layer probe |
| `Classification.ImageIgnoresProbe` | simple_text_based/ocr.js:73-76 | whether a file is classified as an image never depends on the PDF probe |
| `Classification.UpperCaseImageExample` | ocr_express.js:20-21 | `scan.PNG` is an image |
| `Classification.TrailingSlashImageExample` | simple_text_based/ocr.js:9 | `receipt.jpeg/` is an image: trailing slashes are ignored when the extension is taken |
| `Classification.TiffExample` | simple_text_based/ocr.js:10 | `scan.tiff` is not an image |
| `Classification.HiddenPngExample` | ocr_express.js:20-21 | `uploads/.png` is not an image, because a hidden file has no extension |
| `Classification.BlankTextLayerExample` | ocr_express.js:25-34 | a text layer of spaces, newlines and tabs is not text-based; one holding a word is |
| `ExpressServer.ConvertPdfToImage` | ocr_express.js:50-65 | on success the result is the fixed path `outputDir/image-1.png`, whatever the page count, and it is never empty; a conversion error is rethrown |
| `ExpressServer.ExtractTextFromTextBasedPdf` | ocr_express.js:37-47 | the text layer, or the parse error rethrown; its use is stated by `ExpressServer.ExpressRoutes` |
| `ExpressServer.ExtractTextFromImage` | ocr_express.js:68-77 | Tesseract's text, or its error rethrown; its use is stated by `ExpressServer.ExpressRoutes` |
| `ExpressServer.ExtractTextFromFile` | ocr_express.js:81-109 | no tool is called exactly when the name is neither an image nor a `.pdf`, and then the result is the `Unsupported file type` throw; per kind, `ExpressServer.ExpressRoutes` |
| `ExpressServer.ExpressRoutes` | ocr_express.js:81-109 | an image gives its own OCR result, with no probe. A text-layer PDF gives exactly its text layer, with no conversion or OCR. An image-only PDF is converted and only `outputDir/image-1.png` is OCR'd; a conversion error propagates as a throw. Anything else throws `UnsupportedFileType` and calls no tool |
| `ExpressServer.ExpressProbesOnlyPdfs` | ocr_express.js:87-104 | the PDF probe runs exactly for files classified as PDFs, and the only images OCR'd are the file itself or `outputDir/image-1.png` |
| `ExpressServer.HandleUpload` | ocr_express.js:112-135 | 400 exactly when no file was uploaded. 200 exactly when extraction on the corrected path resolved, and the body is then that text inside `<pre>…</pre>`. Any other outcome is 500 |
| `ExpressServer.CorrectedPath` | ocr_express.js:119-121 | the stored path with the original extension appended; its contract is stated by `ExpressServer.CorrectedPathKeepsExtension` |
| `ExpressServer.CorrectedPathKeepsExtension` | ocr_express.js:119-124 | for a path multer generated, appending the original extension gives a path whose extension is the original one |
| `ExpressServer.UploadRoutesByOriginalName` | ocr_express.js:119-134 | the corrected path is an image or a PDF exactly as the client's file name is. An upload whose name is neither gets 500 without any tool being called |
| `ExpressServer.TextPdfUploadAnswersText` | ocr_express.js:128-130 | a PDF upload with a visible text layer gets 200 with exactly that text inside `<pre>…</pre>` |
| `ExpressServer.FailedConversionUploadAnswers500` | ocr_express.js:58-64 | a PDF upload without a text layer that the rasterizer fails on gets 500 |
| `SimpleCli.ConvertPdfToImage` | simple_text_based/ocr.js:37-52 | on success the fixed path `outputDir/image-1.png`, non-empty; on a conversion error `undefined` rather than a throw |
| `SimpleCli.ExtractTextFromTextBasedPdf` | simple_text_based/ocr.js:26-35 | the text layer reported, or nothing when reading or parsing fails; its use is stated by `SimpleCli.CliRoutes` |
| `SimpleCli.ExtractTextFromImage` | simple_text_based/ocr.js:55-69 | the recognized text reported, or nothing when Tesseract rejects; its use is stated by `SimpleCli.CliRoutes` |
| `SimpleCli.ExtractTextFromFile` | simple_text_based/ocr.js:72-94 | no tool is called exactly when the name is neither an image nor a `.pdf`, and then nothing is extracted; per kind, `SimpleCli.CliRoutes` |
| `SimpleCli.CliRoutes` | simple_text_based/ocr.js:72-94 | an image is OCR'd with no probe, and exactly the recognized text is reported, or nothing on a rejection. A text-layer PDF reports exactly its text layer, with no conversion or OCR. An image-only PDF is converted, and `outputDir/image-1.png` is OCR'd only when conversion gave a path. Anything else calls no tool and extracts nothing |
| `SimpleCli.RoutersAgree` | simple_text_based/ocr.js:55-94 | the command-line router and the server router make the same tool calls in the same order. The server resolves with a text exactly when the command-line run reports it, and throws exactly when that run reports nothing |
| `PageOcr.PngImages` | image_with_text_based/ocr_node.js:35 | the `.png` filter; its contract is stated by `PageOcr.PngImagesMembers` and `PageOcr.PngImagesAppend` |
| `PageOcr.PngImagesMembers` | image_with_text_based/ocr_node.js:35 | the filtered list holds exactly the listing entries whose names end with `.png`, case-sensitive, and is no longer than the listing |
| `PageOcr.PngImagesAppend` | image_with_text_based/ocr_node.js:35 | filtering keeps listing order: the filter of a concatenation is the concatenation of the filters |
| `PageOcr.ListingOrderExample` | image_with_text_based/ocr_node.js:35 | `page-10.png` stays before `page-2.png` because there is no numeric re-sort, and `scan.PNG` is dropped |
| `PageOcr.ExtractTextFromImage` | image_with_text_based/ocr_node.js:17-25 | the recognized text, or `""` when Tesseract rejects; its effect is stated by `PageOcr.FailedPageContributesNothing` |
| `PageOcr.Aggregated` | image_with_text_based/ocr_node.js:42-48 | the accumulator after the loop; its contract is stated by `PageOcr.AggregatedAppend`, `PageOcr.PageTextAppears` and `PageOcr.AggregatedNewlines` |
| `PageOcr.AggregatedAppend` | image_with_text_based/ocr_node.js:42-48 | the accumulated text of two runs of pages is the text of the first followed by the text of the second |
| `PageOcr.PageTextAppears` | image_with_text_based/ocr_node.js:43-48 | page `k`'s text appears whole, followed by `"\n"`, between the text of the earlier pages and the text of the later ones |
| `PageOcr.FailedPageContributesNothing` | image_with_text_based/ocr_node.js:17-25 | a page whose OCR rejects contributes only its newline, and every other page's text is still present, in order |
| `PageOcr.AggregatedNewlines` | image_with_text_based/ocr_node.js:47 | the accumulated text has at least one `"\n"` per image |
| `PageOcr.ProcessPdf` | image_with_text_based/ocr_node.js:28-59 | a conversion or listing error is caught, with no OCR and nothing written. With no `.png` it returns early with no OCR and nothing written. Otherwise every `.png` is OCR'd in listing order and the written content is exactly the concatenation of each page's text and `"\n"` |

## Left out

- OCR, PDF parsing and rasterization are oracles. The Tesseract, pdf-parse and pdf-poppler/pdftoppm internals are not part of this model.
- `parsePdf` is a function of the path. The second parse in the text-layer branch therefore sees what the probe saw, so in this model that branch never throws. A file that changes or becomes unreadable between the two reads is not modelled.
- `ExpressServer.ExtractTextFromFile`: there is no branch for the source's `if (imagePath)` guard. `convertPdfToImage` either returns a non-empty path or throws, so the guard cannot fail. The command-line model keeps the guard.
- `toLowerCase` is modelled for ASCII letters only. None of the six extensions the routers compare against can be produced by lower-casing a non-ASCII character.
- `Paths.Join`: `path.join` is modelled without normalisation. A `dir` ending in several slashes keeps them all (`a//` plus `x` gives `a//x` where Node gives `a/x`), and `./output` plus `page-1.png` gives `./output/page-1.png` where Node gives `output/page-1.png`. In both cases the two paths name the same file. Only POSIX path semantics are modelled, not Windows ones.
- The I/O plumbing is not modelled. This covers the express server, static serving, multer's storage, `fs.renameSync`, `fs.mkdirSync`, writing `extracted_text.txt` and all console logging. The model keeps the status-code and path decisions and the content that would be written. A write error, which `processPdf` would catch, is not modelled.
- Promise timing is not modelled. The command-line script starts OCR without awaiting it; the model records the call and its outcome as if it had completed.
- Shell command construction for `pdftoppm` (`image_with_text_based/ocr_node.js:9`) is not modelled; only success or failure of the command is.
- The sharp preprocessing pipeline in `image_with_text_based/ocr.js` (resize, grayscale, normalise, threshold, unlink) is not part of this model. It is pixel processing with no decision logic.
- `ExpressServer.UploadRoutesByOriginalName` and `ExpressServer.CorrectedPathKeepsExtension` assume a stored path of the form multer generates: `uploads/` followed by a name with no `.` and no `/`.
- `ExpressServer.ConvertPdfToImage` and `SimpleCli.ConvertPdfToImage` return the fixed path `outputDir/image-1.png`. The model does not capture which file that path names. pdftoppm pads page numbers to the width of the page count, so for a PDF of 10 or more pages page 1 is written as `image-01.png` or wider. The fixed path then names no page of that document, or a stale image left in the shared `output/` directory by an earlier run. Recognition is an oracle on the path alone, so the model cannot tell these apart.
- `ExpressServer.HandleUpload`: `fs.renameSync` (ocr_express.js:124) runs before the handler's `try`. A rename error escapes the catch, and the handler sends no response of its own. The model assumes the rename succeeds.
