/** Document classification. `isImageFile` and `isTextBasedPDF` are written
    identically in ocr_express.js and simple_text_based/ocr.js; both routers
    use the one definition here. */
module Classification {
  import opened Paths
  import opened External

  /** The raster extensions `isImageFile` accepts, in lower case. */
  const ImageExtensions: seq<string> := [".png", ".jpg", ".jpeg", ".bmp", ".gif"]

  const PdfExtension: string := ".pdf"

  /** `isImageFile(filePath)`: the lower-cased `extname` is in the list. */
  predicate IsImageFile(filePath: string) {
    Lower(ExtName(filePath)) in ImageExtensions
  }

  /** The routers' `.pdf` test on the lower-cased `extname`. */
  predicate IsPdfFile(filePath: string) {
    Lower(ExtName(filePath)) == PdfExtension
  }

  /** `isTextBasedPDF`: the parsed text, trimmed, is non-empty; an error while
      reading or parsing yields false instead of propagating. */
  predicate IsTextBasedPdf(probe: Probe) {
    match probe
    case Parsed(text) => |Trim(text)| > 0
    case ParseError => false
  }

  /** The four kinds a document can be classified as. */
  datatype DocKind = Image | TextPdf | ImagePdf | Unsupported

  /** The file name, lower-cased and without trailing slashes, ends with `e`
      inside a non-empty last component. */
  predicate NamedWith(filePath: string, e: string) {
    EndsWithExtension(Lower(TrimTrailingSlashes(filePath)), e)
  }

  /** Reference classification, stated on the tail of the file name and the
      content of the text layer: an image name, else a PDF with a visible
      character in its text layer, else a PDF whose text layer is blank or
      unreadable, else unsupported. */
  function Classify(filePath: string, probe: Probe): DocKind {
    if exists e :: e in ImageExtensions && NamedWith(filePath, e) then Image
    else if !NamedWith(filePath, PdfExtension) then Unsupported
    else if probe.Parsed? && HasVisibleChar(probe.text) then TextPdf
    else ImagePdf
  }

  /** `isImageFile` holds exactly when the file name ends, in any letter case,
      with one of the five raster extensions inside a non-empty component:
      `X.PNG` is an image, `.png` alone (a hidden file) is not. */
  lemma ImageFileIff(filePath: string)
    ensures IsImageFile(filePath) <==> exists e :: e in ImageExtensions && NamedWith(filePath, e)
  {
    forall e | e in ImageExtensions
      ensures Lower(ExtName(filePath)) == e <==> NamedWith(filePath, e)
    {
      ImageExtensionShape(e);
      LowerExtNameIff(filePath, e);
    }
  }

  /** Each raster extension is a '.' and at least one ordinary character. */
  lemma ImageExtensionShape(e: string)
    requires e in ImageExtensions
    ensures IsExtension(e) && |e| >= 2
  {
  }

  /** The `.pdf` test holds exactly when the file name ends with `.pdf` in
      any letter case inside a non-empty component. */
  lemma PdfFileIff(filePath: string)
    ensures IsPdfFile(filePath) <==> NamedWith(filePath, PdfExtension)
  {
    LowerExtNameIff(filePath, PdfExtension);
  }

  /** `isTextBasedPDF` holds exactly when the PDF parsed and its text layer has
      a character other than whitespace; a blank layer and a parse error both
      give false. */
  lemma TextBasedIff(probe: Probe)
    ensures IsTextBasedPdf(probe) <==> probe.Parsed? && HasVisibleChar(probe.text)
  {
    if probe.Parsed? {
      TrimNonEmptyIff(probe.text);
    }
  }

  /** The routers' decision tree (image test first, then the `.pdf` test, then
      the text-layer probe) agrees with the reference classification. */
  lemma DecisionTreeClassifies(filePath: string, probe: Probe)
    ensures Classify(filePath, probe) ==
      if IsImageFile(filePath) then Image
      else if IsPdfFile(filePath) then (if IsTextBasedPdf(probe) then TextPdf else ImagePdf)
      else Unsupported
  {
    ImageFileIff(filePath);
    PdfFileIff(filePath);
    TextBasedIff(probe);
  }

  /** Whether a file counts as an image never depends on the PDF probe. */
  lemma ImageIgnoresProbe(filePath: string, a: Probe, b: Probe)
    ensures Classify(filePath, a) == Image <==> IsImageFile(filePath)
    ensures Classify(filePath, a) == Image <==> Classify(filePath, b) == Image
  {
    ImageFileIff(filePath);
  }

  /** Extensions are compared case-insensitively. */
  lemma UpperCaseImageExample()
    ensures IsImageFile("scan.PNG")
  {
    var p := "scan.PNG";
    assert TrimTrailingSlashes(p) == p;
    ExtNameAt(p, 4);
    assert ExtName(p) == ".PNG";
    assert Lower(".PNG") == ".png";
  }

  /** A trailing slash is ignored when the extension is taken. */
  lemma TrailingSlashImageExample()
    ensures IsImageFile("receipt.jpeg/")
  {
    var p := "receipt.jpeg/";
    assert TrimTrailingSlashes(p) == TrimTrailingSlashes("receipt.jpeg") == "receipt.jpeg";
    ExtNameAt(p, 7);
    assert ExtName(p) == ".jpeg";
    assert Lower(".jpeg") == ".jpeg";
  }

  /** `.tiff` is not one of the raster types. */
  lemma TiffExample()
    ensures !IsImageFile("scan.tiff")
  {
    var p := "scan.tiff";
    assert TrimTrailingSlashes(p) == p;
    ExtNameAt(p, 4);
    assert ExtName(p) == ".tiff";
    assert Lower(".tiff") == ".tiff";
  }

  /** A hidden file named `.png` has no extension. */
  lemma HiddenPngExample()
    ensures !IsImageFile("uploads/.png")
  {
    var p := "uploads/.png";
    assert TrimTrailingSlashes(p) == p;
    assert !NamedWith(p, ".png") by {
      assert Lower(p)[7] == '/';
    }
    ImageFileIff(p);
  }

  /** A whitespace-only text layer is no text layer; a layer with one word is. */
  lemma BlankTextLayerExample()
    ensures !IsTextBasedPdf(Parsed(" \n\t "))
    ensures IsTextBasedPdf(Parsed(" Rent "))
  {
    var blank, word := " \n\t ", " Rent ";
    assert !HasVisibleChar(blank) by {
      assert blank[0] == ' ' && blank[1] == '\n' && blank[2] == '\t' && blank[3] == ' ';
    }
    assert HasVisibleChar(word) by {
      assert word[1] == 'R';
    }
    TextBasedIff(Parsed(blank));
    TextBasedIff(Parsed(word));
  }
}
