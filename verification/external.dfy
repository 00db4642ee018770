/** The libraries the pipeline calls into, seen only through their results.
    pdf-parse, pdf-poppler / pdftoppm, `fs.readdirSync` and Tesseract are
    opaque: each is a function of its arguments supplied by the caller, and
    the pipeline's calls into them are recorded as a trace. */
module External {

  /** Why an operation threw. */
  datatype Failure =
    | UnsupportedFileType  // `new Error('Unsupported file type')`
    | ParseFailed          // reading or parsing the PDF failed
    | ConversionFailed     // the rasterizer reported an error
    | RecognitionFailed    // Tesseract rejected
    | ListingFailed        // the output directory could not be listed

  /** A value, or the error a promise rejected with. */
  datatype Outcome<+T> = Ok(value: T) | Thrown(error: Failure)

  /** What pdf-parse made of a file: its text layer, or an error (an
      unreadable file or a corrupt PDF). */
  datatype Probe = Parsed(text: string) | ParseError

  /** One call into an external tool. */
  datatype Call =
    | ParsePdf(pdf: string)                 // readFileSync + pdfParse
    | Convert(pdf: string, outDir: string)  // poppler.convert / pdftoppm
    | ListDir(dir: string)                  // fs.readdirSync
    | Recognize(image: string)              // Tesseract.recognize

  /** The results the tools give. */
  datatype Tools = Tools(
    parsePdf: string -> Probe,
    convert: (string, string) -> bool,
    listDir: string -> Outcome<seq<string>>,
    recognize: string -> Outcome<string>)
}
