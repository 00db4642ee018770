/** Whole-document OCR in image_with_text_based/ocr_node.js: rasterize every
    page with pdftoppm, list the output directory, recognize each `.png` in
    listing order and append its text and a newline to one accumulator,
    which is then written to `extracted_text.txt`. */
module PageOcr {
  import opened Wrappers
  import opened Paths
  import opened External

  /** `file.endsWith(".png")`: case-sensitive, and true of `.png` itself. */
  predicate EndsWithPng(name: string) {
    |name| >= 4 && name[|name| - 4..] == ".png"
  }

  /** `readdirSync(outputDir).filter(file => file.endsWith(".png"))`. */
  function PngImages(listing: seq<string>): seq<string> {
    if listing == [] then []
    else
      var last := listing[|listing| - 1];
      PngImages(listing[..|listing| - 1]) + (if EndsWithPng(last) then [last] else [])
  }

  /** The filtered list holds exactly the listed names that end with `.png`,
      and is no longer than the listing. */
  lemma {:induction false} PngImagesMembers(listing: seq<string>)
    ensures forall x :: x in PngImages(listing) <==> x in listing && EndsWithPng(x)
    ensures |PngImages(listing)| <= |listing|
    decreases |listing|
  {
    if listing != [] {
      var init := listing[..|listing| - 1];
      PngImagesMembers(init);
      assert listing == init + [listing[|listing| - 1]];
    }
  }

  /** Filtering keeps listing order: the images of a listing are the images
      of its first part followed by those of its second. */
  lemma {:induction false} PngImagesAppend(a: seq<string>, b: seq<string>)
    ensures PngImages(a + b) == PngImages(a) + PngImages(b)
    decreases |b|
  {
    if b != [] {
      var b' := b[..|b| - 1];
      assert (a + b)[..|a + b| - 1] == a + b';
      assert (a + b)[|a + b| - 1] == b[|b| - 1];
      PngImagesAppend(a, b');
      var last := b[|b| - 1];
      var tail := if EndsWithPng(last) then [last] else [];
      calc {
        PngImages(a + b);
        PngImages(a + b') + tail;
        PngImages(a) + PngImages(b') + tail;
        PngImages(a) + (PngImages(b') + tail);
        PngImages(a) + PngImages(b);
      }
    } else {
      assert a + b == a;
    }
  }

  /** A one-name listing keeps the name exactly when it ends with `.png`. */
  lemma PngImagesOne(name: string)
    ensures PngImages([name]) == if EndsWithPng(name) then [name] else []
  {
    assert [name][..0] == [];
  }

  /** Two `.png` names followed by two others filter to the first two, in order. */
  lemma KeepsFirstTwo(a: string, b: string, c: string, d: string)
    requires EndsWithPng(a) && EndsWithPng(b) && !EndsWithPng(c) && !EndsWithPng(d)
    ensures PngImages([a, b, c, d]) == [a, b]
  {
    var l1, l2, l3, l4 := [a], [a, b], [a, b, c], [a, b, c, d];
    PngImagesOne(a);
    assert l2[..1] == l1 && l2[1] == b;
    assert PngImages(l2) == [a, b];
    assert l3[..2] == l2 && l3[2] == c;
    assert PngImages(l3) == [a, b];
    assert l4[..3] == l3 && l4[3] == d;
  }

  /** A worked listing: names are kept in the order the directory gave them
      (`page-10.png` before `page-2.png`, no re-sort by page number), and the
      test is case-sensitive, so `scan.PNG` is skipped. */
  lemma ListingOrderExample()
    ensures PngImages(["page-10.png", "page-2.png", "notes.txt", "scan.PNG"]) ==
      ["page-10.png", "page-2.png"]
  {
    var p10, p2, notes, upper := "page-10.png", "page-2.png", "notes.txt", "scan.PNG";
    assert EndsWithPng(p10) by { assert p10[7..] == ".png"; }
    assert EndsWithPng(p2) by { assert p2[6..] == ".png"; }
    assert !EndsWithPng(notes) by { assert notes[6] != 'p'; }
    assert !EndsWithPng(upper) by { assert upper[5] != 'p'; }
    KeepsFirstTwo(p10, p2, notes, upper);
  }

  /** `extractTextFromImage(imagePath)`: the recognized text, or "" when
      Tesseract rejects. */
  function ExtractTextFromImage(imagePath: string, tools: Tools): string {
    match tools.recognize(imagePath)
    case Ok(text) => text
    case Thrown(_) => ""
  }

  /** The text each listed image contributes, in listing order. */
  function PageTexts(outputDir: string, images: seq<string>, tools: Tools): (texts: seq<string>)
    ensures |texts| == |images|
  {
    seq(|images|, i requires 0 <= i < |images| => ExtractTextFromImage(Join(outputDir, images[i]), tools))
  }

  /** The recognition calls for the listed images, in listing order. */
  function RecognizeCalls(outputDir: string, images: seq<string>): (calls: seq<Call>)
    ensures |calls| == |images|
  {
    seq(|images|, i requires 0 <= i < |images| => Recognize(Join(outputDir, images[i])))
  }

  /** The accumulator after the loop: every page's text, each followed by
      a newline, in order. */
  function Aggregated(texts: seq<string>): string {
    if texts == [] then ""
    else Aggregated(texts[..|texts| - 1]) + texts[|texts| - 1] + "\n"
  }

  /** Aggregating two runs of pages is aggregating each in turn. */
  lemma {:induction false} AggregatedAppend(a: seq<string>, b: seq<string>)
    ensures Aggregated(a + b) == Aggregated(a) + Aggregated(b)
    decreases |b|
  {
    if b != [] {
      var b' := b[..|b| - 1];
      assert (a + b)[..|a + b| - 1] == a + b';
      assert (a + b)[|a + b| - 1] == b[|b| - 1];
      AggregatedAppend(a, b');
      var last := b[|b| - 1];
      calc {
        Aggregated(a + b);
        Aggregated(a + b') + last + "\n";
        Aggregated(a) + Aggregated(b') + last + "\n";
        Aggregated(a) + (Aggregated(b') + last + "\n");
        Aggregated(a) + Aggregated(b);
      }
    } else {
      assert a + b == a;
    }
  }

  /** Page `k`'s text appears whole, right after the pages before it and
      followed by a newline, before the pages after it. */
  lemma PageTextAppears(texts: seq<string>, k: nat)
    requires k < |texts|
    ensures Aggregated(texts) == Aggregated(texts[..k]) + texts[k] + "\n" + Aggregated(texts[k + 1..])
  {
    var upTo, after := texts[..k + 1], texts[k + 1..];
    assert texts == upTo + after;
    AggregatedAppend(upTo, after);
    assert upTo[..|upTo| - 1] == texts[..k];
    assert Aggregated(upTo) == Aggregated(texts[..k]) + texts[k] + "\n";
  }

  /** A page whose recognition fails contributes only its newline; the text
      of every other page is still there, in order. */
  lemma FailedPageContributesNothing(outputDir: string, images: seq<string>, tools: Tools, k: nat)
    requires k < |images| && tools.recognize(Join(outputDir, images[k])).Thrown?
    ensures Aggregated(PageTexts(outputDir, images, tools)) ==
      Aggregated(PageTexts(outputDir, images[..k], tools)) + "\n" +
      Aggregated(PageTexts(outputDir, images[k + 1..], tools))
  {
    var texts := PageTexts(outputDir, images, tools);
    var before := Aggregated(texts[..k]);
    PageTextAppears(texts, k);
    assert texts[k] == "";
    assert texts[..k] == PageTexts(outputDir, images[..k], tools);
    assert texts[k + 1..] == PageTexts(outputDir, images[k + 1..], tools);
    assert before + texts[k] == before;
  }

  /** Occurrences of `c` in `s`. */
  function Occurrences(s: string, c: char): nat {
    if s == [] then 0 else Occurrences(s[..|s| - 1], c) + (if s[|s| - 1] == c then 1 else 0)
  }

  lemma {:induction false} OccurrencesAppend(a: string, b: string, c: char)
    ensures Occurrences(a + b, c) == Occurrences(a, c) + Occurrences(b, c)
    decreases |b|
  {
    if b != [] {
      var b' := b[..|b| - 1];
      assert (a + b)[..|a + b| - 1] == a + b';
      assert (a + b)[|a + b| - 1] == b[|b| - 1];
      OccurrencesAppend(a, b', c);
      var last := b[|b| - 1];
      assert Occurrences(a + b, c) == Occurrences(a + b', c) + (if last == c then 1 else 0);
    } else {
      assert a + b == a;
    }
  }

  /** The aggregated text has at least one newline per page, whatever the
      pages' own texts are. */
  lemma {:induction false} AggregatedNewlines(texts: seq<string>)
    ensures Occurrences(Aggregated(texts), '\n') >= |texts|
    decreases |texts|
  {
    if texts != [] {
      var init := texts[..|texts| - 1];
      AggregatedNewlines(init);
      OccurrencesAppend(Aggregated(init), texts[|texts| - 1], '\n');
      OccurrencesAppend(Aggregated(init) + texts[|texts| - 1], "\n", '\n');
      assert Occurrences("\n", '\n') == Occurrences([], '\n') + 1;
    }
  }

  /** One more image adds its text and its recognition call at the end. */
  lemma PageTextsSnoc(outputDir: string, images: seq<string>, tools: Tools, i: nat)
    requires i < |images|
    ensures PageTexts(outputDir, images[..i + 1], tools) ==
      PageTexts(outputDir, images[..i], tools) + [ExtractTextFromImage(Join(outputDir, images[i]), tools)]
    ensures RecognizeCalls(outputDir, images[..i + 1]) ==
      RecognizeCalls(outputDir, images[..i]) + [Recognize(Join(outputDir, images[i]))]
  {
  }

  /** `processPdf(pdfPath, outputDir)`. Returns the tool calls made and the
      content written to `extracted_text.txt`, if any. A conversion or
      listing error is caught and nothing is written; an empty `.png` list
      returns early with nothing recognized and nothing written; otherwise
      every `.png` is recognized in listing order and the accumulated text
      is written exactly. */
  method ProcessPdf(pdfPath: string, outputDir: string, tools: Tools)
    returns (calls: seq<Call>, written: Option<string>)
    ensures !tools.convert(pdfPath, outputDir) ==>
      calls == [Convert(pdfPath, outputDir)] && written == None
    ensures tools.convert(pdfPath, outputDir) && tools.listDir(outputDir).Thrown? ==>
      calls == [Convert(pdfPath, outputDir), ListDir(outputDir)] && written == None
    ensures tools.convert(pdfPath, outputDir) && tools.listDir(outputDir).Ok? ==>
      var images := PngImages(tools.listDir(outputDir).value);
      calls == [Convert(pdfPath, outputDir), ListDir(outputDir)] + RecognizeCalls(outputDir, images) &&
      written == (if images == [] then None else Some(Aggregated(PageTexts(outputDir, images, tools))))
  {
    calls := [Convert(pdfPath, outputDir)];
    written := None;
    if !tools.convert(pdfPath, outputDir) {
      return;
    }
    calls := calls + [ListDir(outputDir)];
    var listing := tools.listDir(outputDir);
    if listing.Thrown? {
      return;
    }
    var images := PngImages(listing.value);
    if |images| == 0 {
      return;
    }
    ghost var before := calls;
    var extractedText := "";
    var i := 0;
    while i < |images|
      invariant 0 <= i <= |images|
      invariant extractedText == Aggregated(PageTexts(outputDir, images[..i], tools))
      invariant calls == before + RecognizeCalls(outputDir, images[..i])
    {
      var imagePath := Join(outputDir, images[i]);
      var text := ExtractTextFromImage(imagePath, tools);
      extractedText := extractedText + text + "\n";
      calls := calls + [Recognize(imagePath)];
      PageTextsSnoc(outputDir, images, tools, i);
      i := i + 1;
    }
    assert images[..i] == images;
    written := Some(extractedText);
  }
}
