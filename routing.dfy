/**
  The branch chain of `handle_conversion`: which converter a conversion
  token and an input extension select, and the suffix and media type of the
  download each branch produces.
 */
module Routing {
  import opened Common
  import opened Registry

  /** The branch of the `if`/`elif` chain a request takes. */
  datatype Branch =
    | JsonToCsvBranch
    | CsvToJsonBranch
    | MarkdownToDocxBranch
    | DocxToMarkdownBranch
    | ImageFormatBranch(target: string)
    | OcrTextBranch
    | OcrPdfBranch
    | OcrTextRejected          // an OCR token with a non-image extension
    | OcrPdfRejected
    | NoBranch                 // nothing assigned: the generic fallthrough

  const DocxMimetype: string := "application/vnd.openxmlformats-officedocument.wordprocessingml.document"

  /** The conversion tokens the chain recognises. */
  const Tokens: set<string> := {"json-csv", "markdown-docx", "image-format", "image-to-text-ocr", "image-to-searchable-pdf-ocr"}

  /** The routing of `handle_conversion`; `targetFormat` is the form's `target_format` field. */
  function Route(conversionType: string, ext: string, targetFormat: Option<string>): (b: Branch)
    ensures b.ImageFormatBranch? <==> conversionType == "image-format"
    ensures b.OcrTextBranch? || b == OcrTextRejected <==> conversionType == "image-to-text-ocr"
    ensures b.OcrPdfBranch? || b == OcrPdfRejected <==> conversionType == "image-to-searchable-pdf-ocr"
    ensures IsRejection(b) <==> conversionType in {"image-to-text-ocr", "image-to-searchable-pdf-ocr"} && ext !in Category("image")
  {
    if conversionType == "json-csv" then
      if ext == "json" then JsonToCsvBranch
      else if ext == "csv" then CsvToJsonBranch
      else NoBranch
    else if conversionType == "markdown-docx" then
      if ext in ["md", "markdown"] then MarkdownToDocxBranch
      else if ext == "docx" then DocxToMarkdownBranch
      else NoBranch
    else if conversionType == "image-format" then
      ImageFormatBranch(ToLower(targetFormat.GetOr("png")))
    else if conversionType == "image-to-text-ocr" then
      if ext in Category("image") then OcrTextBranch else OcrTextRejected
    else if conversionType == "image-to-searchable-pdf-ocr" then
      if ext in Category("image") then OcrPdfBranch else OcrPdfRejected
    else
      NoBranch
  }

  /** The suffix of the download name and the media type a branch assigns. */
  datatype Output = Output(suffix: string, mimetype: string)

  function OutputOf(b: Branch): (o: Option<Output>)
    ensures o.None? <==> IsRejection(b) || b == NoBranch
    ensures o.Some? ==> o.value.suffix != "" || b.ImageFormatBranch?
  {
    match b
    case JsonToCsvBranch => Some(Output("csv", "text/csv"))
    case CsvToJsonBranch => Some(Output("json", "application/json"))
    case MarkdownToDocxBranch => Some(Output("docx", DocxMimetype))
    case DocxToMarkdownBranch => Some(Output("md", "text/markdown"))
    case ImageFormatBranch(t) => Some(Output(t, "image/" + t))
    case OcrTextBranch => Some(Output("txt", "text/plain"))
    case OcrPdfBranch => Some(Output("pdf", "application/pdf"))
    case _ => None
  }

  /** `f"converted_{unique_id}.{ext}"`. */
  function DownloadName(uniqueId: string, o: Output): (name: string)
    ensures name == "converted_" + uniqueId + "." + o.suffix
    ensures |name| > 0
  {
    "converted_" + uniqueId + "." + o.suffix
  }

  predicate IsRejection(b: Branch) {
    b.OcrTextRejected? || b.OcrPdfRejected?
  }

  /**
    The two bidirectional tokens as a table keyed by (token, input
    extension): the direction each extension selects.
   */
  const DirectionTable: map<(string, string), Output> := map[
    ("json-csv", "json") := Output("csv", "text/csv"),
    ("json-csv", "csv") := Output("json", "application/json"),
    ("markdown-docx", "md") := Output("docx", DocxMimetype),
    ("markdown-docx", "markdown") := Output("docx", DocxMimetype),
    ("markdown-docx", "docx") := Output("md", "text/markdown")
  ]

  /**
    Under "json-csv" and "markdown-docx" the extension picks the direction
    as the table says; an extension missing from the table produces nothing
    and is not an OCR-style rejection, so it reaches the generic 400.
   */
  lemma BidirectionalMatchesTable(conversionType: string, ext: string, targetFormat: Option<string>)
    requires conversionType == "json-csv" || conversionType == "markdown-docx"
    ensures var b := Route(conversionType, ext, targetFormat);
      && (OutputOf(b).Some? <==> (conversionType, ext) in DirectionTable)
      && ((conversionType, ext) in DirectionTable ==> OutputOf(b) == Some(DirectionTable[(conversionType, ext)]))
      && ((conversionType, ext) !in DirectionTable ==> b == NoBranch)
  {
  }

  /** "image-format" ignores the extension; the target defaults to "png" and is lower-cased. */
  lemma ImageFormatIgnoresExtension(ext: string, targetFormat: Option<string>)
    ensures var t := ToLower(targetFormat.GetOr("png"));
      && Route("image-format", ext, targetFormat) == ImageFormatBranch(t)
      && OutputOf(Route("image-format", ext, targetFormat)) == Some(Output(t, "image/" + t))
  {
  }

  lemma ImageFormatDefault(ext: string)
    ensures OutputOf(Route("image-format", ext, None)) == Some(Output("png", "image/png"))
  {
    var none: Option<string> := None;
    assert none.GetOr("png") == "png";
    assert ToLower("png") == "png" by {
      forall i | 0 <= i < 3 ensures ToLower("png")[i] == "png"[i] { }
    }
    assert "image/" + "png" == "image/png";
  }

  /**
    The OCR tokens produce output iff the extension is an image extension
    of the registry; otherwise the branch is their own rejection.
   */
  lemma OcrNeedsImage(conversionType: string, ext: string, targetFormat: Option<string>)
    requires conversionType == "image-to-text-ocr" || conversionType == "image-to-searchable-pdf-ocr"
    ensures var b := Route(conversionType, ext, targetFormat);
      && (OutputOf(b).Some? <==> ext in ["jpg", "jpeg", "png", "heic", "webp", "avif"])
      && (OutputOf(b).None? <==> IsRejection(b))
      && (conversionType == "image-to-text-ocr" && OutputOf(b).Some? ==> OutputOf(b) == Some(Output("txt", "text/plain")))
      && (conversionType == "image-to-searchable-pdf-ocr" && OutputOf(b).Some? ==> OutputOf(b) == Some(Output("pdf", "application/pdf")))
  {
  }

  /** An unrecognised token falls through to the generic branch. */
  lemma UnknownTokenFallsThrough(conversionType: string, ext: string, targetFormat: Option<string>)
    requires conversionType !in Tokens
    ensures Route(conversionType, ext, targetFormat) == NoBranch
  {
  }

  /**
    The whole table: a request produces an output iff its token is
    recognised and, for a bidirectional token, the extension is one of its
    directions, and for an OCR token, an image extension.
   */
  lemma ProducesIff(conversionType: string, ext: string, targetFormat: Option<string>)
    ensures OutputOf(Route(conversionType, ext, targetFormat)).Some? <==>
      || (conversionType, ext) in DirectionTable
      || conversionType == "image-format"
      || ((conversionType == "image-to-text-ocr" || conversionType == "image-to-searchable-pdf-ocr")
          && ext in Category("image"))
  {
  }
}
