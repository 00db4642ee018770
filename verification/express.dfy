/** The upload server in ocr_express.js: `extractTextFromFile`, the
    strategy router, and the status decision of the `/upload` handler. */
module ExpressServer {
  import opened Wrappers
  import opened Paths
  import opened External
  import opened Classification

  /** What one call of `extractTextFromFile` gave (the text it resolved with,
      or the error it threw) and the tool calls it made, in order. */
  datatype Run = Run(result: Outcome<string>, calls: seq<Call>)

  /** The fixed file name the router recognizes after a conversion. Which
      page, if any, a file of that name holds depends on the rasterizer's
      page numbering, which is not part of this model. */
  const FixedImageName: string := "image-1.png"

  /** `convertPdfToImage`: rasterize every page into `outputDir`, then hand
      back the fixed path `outputDir/image-1.png`; a conversion error is
      rethrown. */
  function ConvertPdfToImage(pdfPath: string, outputDir: string, tools: Tools): (r: Outcome<string>)
    ensures r.Ok? <==> tools.convert(pdfPath, outputDir)
    ensures r.Ok? ==> r.value == Join(outputDir, FixedImageName) && r.value != ""
    ensures r.Thrown? ==> r.error == ConversionFailed
  {
    if tools.convert(pdfPath, outputDir) then Ok(Join(outputDir, FixedImageName))
    else Thrown(ConversionFailed)
  }

  /** `extractTextFromTextBasedPDF`: the text layer, or the parse error rethrown. */
  function ExtractTextFromTextBasedPdf(probe: Probe): Outcome<string> {
    match probe
    case Parsed(text) => Ok(text)
    case ParseError => Thrown(ParseFailed)
  }

  /** `extractTextFromImage(imagePath)`: Tesseract's text, or its error
      rethrown. */
  function ExtractTextFromImage(imagePath: string, tools: Tools): Outcome<string> {
    tools.recognize(imagePath)
  }

  /** `extractTextFromFile(filePath, outputDir)`. The image test comes first;
      a `.pdf` is probed, and either its text layer is read (a second parse)
      or it is rasterized and the image at the fixed path recognized; anything
      else throws.
      `convertPdfToImage` either yields a non-empty path or throws, so the
      source's `if (imagePath)` guard always passes and has no branch here. */
  function ExtractTextFromFile(filePath: string, outputDir: string, tools: Tools): (r: Run)
    ensures r.calls == [] <==> !IsImageFile(filePath) && !IsPdfFile(filePath)
    ensures r.calls == [] ==> r.result == Thrown(UnsupportedFileType)
  {
    if IsImageFile(filePath) then
      Run(ExtractTextFromImage(filePath, tools), [Recognize(filePath)])
    else if IsPdfFile(filePath) then
      var probe := tools.parsePdf(filePath);
      if IsTextBasedPdf(probe) then
        Run(ExtractTextFromTextBasedPdf(tools.parsePdf(filePath)),
            [ParsePdf(filePath), ParsePdf(filePath)])
      else
        match ConvertPdfToImage(filePath, outputDir, tools)
        case Thrown(e) =>
          Run(Thrown(e), [ParsePdf(filePath), Convert(filePath, outputDir)])
        case Ok(imagePath) =>
          Run(ExtractTextFromImage(imagePath, tools),
              [ParsePdf(filePath), Convert(filePath, outputDir), Recognize(imagePath)])
    else
      Run(Thrown(UnsupportedFileType), [])
  }

  /** Each kind of document takes its own branch, and only that branch's
      tools are called: an image is recognized as it is and never probed; a
      text-layer PDF yields exactly its text layer with no rasterizing or
      recognition; an image-only PDF (blank or unreadable text layer) is
      rasterized and only the image at the fixed path is recognized, a conversion
      error surfacing as a throw; any other file throws `Unsupported file
      type` without touching a tool. */
  lemma ExpressRoutes(filePath: string, outputDir: string, tools: Tools)
    ensures var run := ExtractTextFromFile(filePath, outputDir, tools);
      var probe := tools.parsePdf(filePath);
      var fixedImage := Join(outputDir, FixedImageName);
      match Classify(filePath, probe)
      case Image =>
        run.calls == [Recognize(filePath)] && run.result == tools.recognize(filePath)
      case TextPdf =>
        probe.Parsed? && run.result == Ok(probe.text) &&
        run.calls == [ParsePdf(filePath), ParsePdf(filePath)]
      case ImagePdf =>
        (tools.convert(filePath, outputDir) ==>
          run.calls == [ParsePdf(filePath), Convert(filePath, outputDir), Recognize(fixedImage)] &&
          run.result == tools.recognize(fixedImage)) &&
        (!tools.convert(filePath, outputDir) ==>
          run.calls == [ParsePdf(filePath), Convert(filePath, outputDir)] &&
          run.result == Thrown(ConversionFailed))
      case Unsupported =>
        run == Run(Thrown(UnsupportedFileType), [])
  {
    DecisionTreeClassifies(filePath, tools.parsePdf(filePath));
    TextBasedIff(tools.parsePdf(filePath));
  }

  /** The PDF is probed exactly when the file is classified as a PDF, and
      whatever is recognized is the file itself or the fixed page image. */
  lemma ExpressProbesOnlyPdfs(filePath: string, outputDir: string, tools: Tools)
    ensures var run := ExtractTextFromFile(filePath, outputDir, tools);
      var kind := Classify(filePath, tools.parsePdf(filePath));
      (ParsePdf(filePath) in run.calls <==> kind == TextPdf || kind == ImagePdf) &&
      (forall c :: c in run.calls && c.Recognize? ==>
         c.image == filePath || c.image == Join(outputDir, FixedImageName))
  {
    var run := ExtractTextFromFile(filePath, outputDir, tools);
    var fixedImage := Join(outputDir, FixedImageName);
    ExpressRoutes(filePath, outputDir, tools);
    match Classify(filePath, tools.parsePdf(filePath))
    case Image =>
      assert run.calls == [Recognize(filePath)];
    case TextPdf =>
      assert run.calls == [ParsePdf(filePath), ParsePdf(filePath)];
    case ImagePdf =>
      if tools.convert(filePath, outputDir) {
        assert run.calls == [ParsePdf(filePath), Convert(filePath, outputDir), Recognize(fixedImage)];
      } else {
        assert run.calls == [ParsePdf(filePath), Convert(filePath, outputDir)];
      }
    case Unsupported =>
      assert run.calls == [];
  }

  // ---------------------------------------------------------------------
  // POST /upload
  // ---------------------------------------------------------------------

  /** What multer handed over: where it stored the upload, and the name the
      client gave the file. */
  datatype UploadedFile = UploadedFile(path: string, originalName: string)

  datatype Response = Response(status: int, body: string)

  /** The directory the handler passes as `outputDir`. */
  const UploadOutputDir: string := "output/"

  /** A path as multer's disk storage with `dest: 'uploads/'` makes it: the
      directory, then a generated name with no '.' and no '/'. */
  predicate IsStoredUploadPath(p: string) {
    |p| > 8 && p[..8] == "uploads/" && forall i :: 8 <= i < |p| ==> p[i] != '.' && p[i] != '/'
  }

  /** `correctedFilePath`: the stored path with the original extension appended. */
  function CorrectedPath(file: UploadedFile): string {
    file.path + ExtName(file.originalName)
  }

  /** The `/upload` handler's decision: 400 when no file came, 200 with the
      extracted text inside `<pre>…</pre>` when extraction on the corrected
      path succeeded, 500 when it threw. */
  function HandleUpload(file: Option<UploadedFile>, tools: Tools): (resp: Response)
    ensures resp.status == 400 <==> file.None?
    ensures resp.status == 200 <==>
      file.Some? && ExtractTextFromFile(CorrectedPath(file.value), UploadOutputDir, tools).result.Ok?
    ensures resp.status == 200 ==>
      resp.body == "<pre>" + ExtractTextFromFile(CorrectedPath(file.value), UploadOutputDir, tools).result.value + "</pre>"
    ensures resp.status in {200, 400, 500}
  {
    match file
    case None => Response(400, "No file uploaded")
    case Some(f) =>
      match ExtractTextFromFile(CorrectedPath(f), UploadOutputDir, tools).result
      case Ok(text) => Response(200, "<pre>" + text + "</pre>")
      case Thrown(_) => Response(500, "Error processing file")
  }

  /** Renaming keeps the client's extension: for a path multer generated, the
      corrected path's extension is the original name's. */
  lemma CorrectedPathKeepsExtension(file: UploadedFile)
    requires IsStoredUploadPath(file.path)
    ensures ExtName(CorrectedPath(file)) == ExtName(file.originalName)
  {
    var p, e := file.path, ExtName(file.originalName);
    ExtNameShape(file.originalName);
    var t := p + e;
    assert t[|t| - 1] != '/' by {
      assert e != [] ==> t[|t| - 1] == e[|e| - 1];
    }
    assert TrimTrailingSlashes(t) == t;
    if e == [] {
      assert t == p;
      var k := ComponentStart(t);
      assert t[7] == '/';
      assert 8 <= k;
      assert LastDot(Basename(t)) == None;
    } else {
      assert t[|p|..] == e;
      ExtNameAt(t, |p|);
    }
  }

  /** The upload is routed by the name the client gave it: the corrected
      path is an image, a PDF or neither exactly as the original name is,
      and an upload whose original name is neither is answered 500 without
      any tool being called. */
  lemma UploadRoutesByOriginalName(file: UploadedFile, tools: Tools)
    requires IsStoredUploadPath(file.path)
    ensures IsImageFile(CorrectedPath(file)) <==> IsImageFile(file.originalName)
    ensures IsPdfFile(CorrectedPath(file)) <==> IsPdfFile(file.originalName)
    ensures !IsImageFile(file.originalName) && !IsPdfFile(file.originalName) ==>
      ExtractTextFromFile(CorrectedPath(file), UploadOutputDir, tools).calls == [] &&
      HandleUpload(Some(file), tools) == Response(500, "Error processing file")
  {
    CorrectedPathKeepsExtension(file);
  }

  /** An upload named as a PDF whose stored file has a visible text layer is
      answered 200 with exactly that text layer inside `<pre>…</pre>`. */
  lemma TextPdfUploadAnswersText(file: UploadedFile, tools: Tools, text: string)
    requires IsStoredUploadPath(file.path) && IsPdfFile(file.originalName)
    requires tools.parsePdf(CorrectedPath(file)) == Parsed(text) && HasVisibleChar(text)
    ensures HandleUpload(Some(file), tools) == Response(200, "<pre>" + text + "</pre>")
  {
    var p := CorrectedPath(file);
    UploadRoutesByOriginalName(file, tools);
    TextBasedIff(Parsed(text));
    assert !IsImageFile(p) && IsPdfFile(p) && IsTextBasedPdf(tools.parsePdf(p));
    assert ExtractTextFromFile(p, UploadOutputDir, tools).result == Ok(text);
  }

  /** An upload named as a PDF whose text layer is blank or unreadable, and
      which the rasterizer fails on, is answered 500. */
  lemma FailedConversionUploadAnswers500(file: UploadedFile, tools: Tools)
    requires IsStoredUploadPath(file.path) && IsPdfFile(file.originalName)
    requires !IsTextBasedPdf(tools.parsePdf(CorrectedPath(file)))
    requires !tools.convert(CorrectedPath(file), UploadOutputDir)
    ensures HandleUpload(Some(file), tools) == Response(500, "Error processing file")
  {
    UploadRoutesByOriginalName(file, tools);
  }
}
