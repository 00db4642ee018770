/** The command-line variant in simple_text_based/ocr.js. Its router has the
    same decision tree as the server's, but nothing is returned to a caller:
    the text that is found is reported on the console, and every error is
    caught and reported instead of thrown. */
module SimpleCli {
  import opened Wrappers
  import opened Paths
  import opened External
  import opened Classification
  import Express = ExpressServer

  /** What one call of `extractTextFromFile` extracted (the text it reports,
      if any) and the tool calls it made, in order. */
  datatype CliRun = CliRun(extracted: Option<string>, calls: seq<Call>)

  /** `convertPdfToImage`: on success the fixed path `outputDir/image-1.png`;
      on a conversion error, `undefined`. */
  function ConvertPdfToImage(pdfPath: string, outputDir: string, tools: Tools): (r: Option<string>)
    ensures r.Some? <==> tools.convert(pdfPath, outputDir)
    ensures r.Some? ==> r.value == Join(outputDir, Express.FixedImageName) && r.value != ""
  {
    if tools.convert(pdfPath, outputDir) then Some(Join(outputDir, Express.FixedImageName)) else None
  }

  /** `extractTextFromTextBasedPDF`: reports the text layer, or catches the
      parse error. */
  function ExtractTextFromTextBasedPdf(probe: Probe): Option<string> {
    match probe
    case Parsed(text) => Some(text)
    case ParseError => None
  }

  /** `extractTextFromImage`: the recognized text, or nothing when the
      promise rejects (the error is caught). */
  function ExtractTextFromImage(imagePath: string, tools: Tools): Option<string> {
    match tools.recognize(imagePath)
    case Ok(text) => Some(text)
    case Thrown(_) => None
  }

  /** `extractTextFromFile(filePath, outputDir)`: image first, then `.pdf`
      (text layer, or conversion then recognition when a path came back),
      else only a log line. */
  function ExtractTextFromFile(filePath: string, outputDir: string, tools: Tools): (r: CliRun)
    ensures r.calls == [] <==> !IsImageFile(filePath) && !IsPdfFile(filePath)
    ensures r.calls == [] ==> r.extracted == None
  {
    if IsImageFile(filePath) then
      CliRun(ExtractTextFromImage(filePath, tools), [Recognize(filePath)])
    else if IsPdfFile(filePath) then
      if IsTextBasedPdf(tools.parsePdf(filePath)) then
        CliRun(ExtractTextFromTextBasedPdf(tools.parsePdf(filePath)),
               [ParsePdf(filePath), ParsePdf(filePath)])
      else
        var imagePath := ConvertPdfToImage(filePath, outputDir, tools);
        var converted := [ParsePdf(filePath), Convert(filePath, outputDir)];
        if imagePath.Some? && imagePath.value != "" then
          CliRun(ExtractTextFromImage(imagePath.value, tools), converted + [Recognize(imagePath.value)])
        else
          CliRun(None, converted)
    else
      CliRun(None, [])
  }

  /** Each kind of document takes its own branch: an image is recognized
      without a probe; a text-layer PDF reports exactly its text layer with no
      rasterizing or recognition; an image-only PDF is rasterized, and the
      image at the fixed path is recognized only when conversion succeeded; any
      other file calls no tool and extracts nothing. */
  lemma CliRoutes(filePath: string, outputDir: string, tools: Tools)
    ensures var run := ExtractTextFromFile(filePath, outputDir, tools);
      var probe := tools.parsePdf(filePath);
      var fixedImage := Join(outputDir, Express.FixedImageName);
      match Classify(filePath, probe)
      case Image =>
        run.calls == [Recognize(filePath)] &&
        run.extracted ==
          (if tools.recognize(filePath).Ok? then Some(tools.recognize(filePath).value) else None)
      case TextPdf =>
        probe.Parsed? && run.extracted == Some(probe.text) &&
        run.calls == [ParsePdf(filePath), ParsePdf(filePath)]
      case ImagePdf =>
        (tools.convert(filePath, outputDir) ==>
          run.calls == [ParsePdf(filePath), Convert(filePath, outputDir), Recognize(fixedImage)] &&
          run.extracted ==
            (if tools.recognize(fixedImage).Ok? then Some(tools.recognize(fixedImage).value) else None)) &&
        (!tools.convert(filePath, outputDir) ==>
          run == CliRun(None, [ParsePdf(filePath), Convert(filePath, outputDir)]))
      case Unsupported =>
        run == CliRun(None, [])
  {
    DecisionTreeClassifies(filePath, tools.parsePdf(filePath));
    TextBasedIff(tools.parsePdf(filePath));
  }

  /** The two routers call the same tools in the same order on every input,
      and they differ only in how failure shows: the server resolves with a
      text exactly when the command-line run reports that text, and throws
      exactly when the command-line run reports nothing (for an unsupported
      file, a failed conversion or a failed recognition). */
  lemma RoutersAgree(filePath: string, outputDir: string, tools: Tools)
    ensures var server := Express.ExtractTextFromFile(filePath, outputDir, tools);
      var cli := ExtractTextFromFile(filePath, outputDir, tools);
      server.calls == cli.calls &&
      (forall text :: server.result == Ok(text) <==> cli.extracted == Some(text)) &&
      (server.result.Thrown? <==> cli.extracted.None?)
  {
  }
}
