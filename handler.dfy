/**
  `handle_conversion`: the pre-checks on the upload, staging the input in
  the temporary directory, running the branch the route selects, sending
  the output and the cleanup in `finally`. The converters and the other
  library calls are parameters: each returns a value or raises.
 */
module Handler {
  import opened Common
  import opened Registry
  import opened JsonCsv
  import opened Routing
  import opened Lifecycle

  /** The `file` field of the multipart form: its declared name and its content. */
  datatype Upload = Upload(filename: string, payload: Bytes)

  /** What the route reads from a request: the `file` field and the form's `target_format` field. */
  datatype Request = Request(file: Option<Upload>, targetFormat: Option<string>)

  /** A file sent as an attachment (status 200), or a JSON body `{"error": ...}` with a status. */
  datatype Response =
    | Download(downloadName: string, mimetype: string, body: Bytes)
    | ErrorReply(status: int, error: string)
  {
    function Status(): (code: int) {
      if Download? then 200 else status
    }
  }

  /** The paragraphs of a word-processing document held in memory. */
  type Paragraphs = seq<string>

  /** A decoded image held in memory, as the imaging library loaded it. */
  type Picture = seq<bv8>

  /**
    The calls the route makes into code outside this module: file name
    sanitising, text decoding and encoding, JSON and CSV libraries, the
    document, image and OCR libraries, and the framework's `send_file`.
   */
  datatype Library = Library(
    secureFilename: string -> string,
    decodeUtf8: Bytes -> Outcome<string>,
    encodeUtf8: string -> Outcome<Bytes>,
    parseJson: string -> Outcome<Json>,
    formatCsv: (seq<string>, seq<seq<Json>>) -> string,
    parseCsv: string -> Outcome<seq<seq<string>>>,
    dumpJson: (seq<string>, seq<Record>) -> string,   // `json.dumps`; keys in the order of the given header
    markdownToDocument: string -> Outcome<Paragraphs>,
    saveDocument: Paragraphs -> Outcome<Bytes>,
    docxToMarkdown: Bytes -> Outcome<string>,
    openImage: (Bytes, string) -> Outcome<Picture>,     // opens; for a JPEG target, flattens transparency on white
    saveImage: (Picture, string) -> Outcome<Bytes>,     // encodes in the target format, into the created file
    ocrText: Bytes -> Outcome<string>,
    ocrPdf: Bytes -> Outcome<Bytes>,
    sendFile: (Bytes, string, string) -> Outcome<Bytes>
  )

  const NoFileMessage: string := "没有上传文件"
  const NoSelectionMessage: string := "没有选择文件"
  const UnsupportedMessage: string := "不支持的转换类型或文件格式"
  const OcrTextRejectMessage: string := "不支持的图片格式进行OCR识别"
  const OcrPdfRejectMessage: string := "不支持的图片格式转换为可搜索PDF"
  const FailurePrefix: string := "转换失败: "

  // The prefixes each converter puts before the message of what it caught.
  const CsvToJsonPrefix: string := "CSV转JSON失败: "
  const MarkdownToDocxPrefix: string := "Markdown转DOCX失败: "
  const DocxToMarkdownPrefix: string := "DOCX转Markdown失败: "
  const ImagePrefix: string := "图片格式转换失败: "
  const OcrTextPrefix: string := "图片OCR识别失败: "
  const OcrPdfPrefix: string := "图片转可搜索PDF失败: "

  function Prefixed<T>(prefix: string, o: Outcome<T>): (r: Outcome<T>)
    ensures o.Ok? ==> r == o
    ensures o.Fault? ==> r == Fault(prefix + o.message) && HasPrefix(r.message, prefix)
  {
    match o
    case Ok(v) => Ok(v)
    case Fault(m) => Fault(prefix + m)
  }

  /** What a branch holds once its converter has run and before its output file exists. */
  datatype Prepared = Text(text: string) | Document(paragraphs: Paragraphs) | Image(picture: Picture) | Pdf(pdf: Bytes)

  /** The text of the CSV file `json_to_csv` returns for a table. */
  function CsvText(doc: CsvDoc, lib: Library): (text: string) {
    match doc
    case Blank => ""
    case Table(bom, header, rows) => bom + lib.formatCsv(header, rows)
  }

  /** The work of the JSON-to-CSV branch before its output file is created. */
  ghost function PrepareJsonToCsvSpec(input: Bytes, lib: Library): (r: Outcome<Prepared>) {
    match lib.decodeUtf8(input)
    case Fault(m) => Fault(m)
    case Ok(content) =>
      match Prefixed(JsonToCsvPrefix, lib.parseJson(content))
      case Fault(m) => Fault(m)
      case Ok(data) =>
        match Tabulation(data)
        case Fault(m) => Fault(m)
        case Ok(doc) => Ok(Text(CsvText(doc, lib)))
  }

  /** The work of every other producing branch before its output file is created. */
  function PrepareOther(b: Branch, input: Bytes, lib: Library): (r: Outcome<Prepared>)
    requires OutputOf(b).Some? && b != JsonToCsvBranch
    // what is handed on matches the branch: a document, an image, a PDF, or text
    ensures r.Ok? ==>
      && (r.value.Document? <==> b == MarkdownToDocxBranch)
      && (r.value.Image? <==> b.ImageFormatBranch?)
      && (r.value.Pdf? <==> b == OcrPdfBranch)
    // the branches that read the staged file directly raise only through their converter
    ensures r.Fault? && b == DocxToMarkdownBranch ==> HasPrefix(r.message, DocxToMarkdownPrefix)
    ensures r.Fault? && b.ImageFormatBranch? ==> HasPrefix(r.message, ImagePrefix)
    ensures r.Fault? && b == OcrTextBranch ==> HasPrefix(r.message, OcrTextPrefix)
    ensures r.Fault? && b == OcrPdfBranch ==> HasPrefix(r.message, OcrPdfPrefix)
  {
    match b
    case CsvToJsonBranch =>
      (match lib.decodeUtf8(input)
       case Fault(m) => Fault(m)
       case Ok(content) =>
         match Prefixed(CsvToJsonPrefix, lib.parseCsv(content))
         case Fault(m) => Fault(m)
         case Ok(lines) => Ok(Text(lib.dumpJson(if lines == [] then [] else lines[0], ReadRecords(lines)))))
    case MarkdownToDocxBranch =>
      (match lib.decodeUtf8(input)
       case Fault(m) => Fault(m)
       case Ok(content) =>
         match Prefixed(MarkdownToDocxPrefix, lib.markdownToDocument(content))
         case Fault(m) => Fault(m)
         case Ok(doc) => Ok(Document(doc)))
    case DocxToMarkdownBranch =>
      (match Prefixed(DocxToMarkdownPrefix, lib.docxToMarkdown(input))
       case Fault(m) => Fault(m)
       case Ok(text) => Ok(Text(text)))
    case ImageFormatBranch(_) =>
      (match Prefixed(ImagePrefix, lib.openImage(input, b.target))
       case Fault(m) => Fault(m)
       case Ok(img) => Ok(Image(img)))
    case OcrTextBranch =>
      (match Prefixed(OcrTextPrefix, lib.ocrText(input))
       case Fault(m) => Fault(m)
       case Ok(text) => Ok(Text(text)))
    case OcrPdfBranch =>
      (match Prefixed(OcrPdfPrefix, lib.ocrPdf(input))
       case Fault(m) => Fault(m)
       case Ok(pdf) => Ok(Pdf(pdf)))
  }

  ghost function Prepare(b: Branch, input: Bytes, lib: Library): (r: Outcome<Prepared>)
    requires OutputOf(b).Some?
  {
    if b == JsonToCsvBranch then PrepareJsonToCsvSpec(input, lib) else PrepareOther(b, input, lib)
  }

  /** The work after the output file exists: the content it is given, or the fault that leaves it behind. */
  function Finish(b: Branch, p: Prepared, lib: Library): (r: Outcome<Bytes>)
    ensures p.Pdf? ==> r.Ok?
    ensures r.Fault? && p.Document? ==> HasPrefix(r.message, MarkdownToDocxPrefix)
    ensures r.Fault? && p.Image? ==> HasPrefix(r.message, ImagePrefix)
  {
    match p
    case Text(text) => lib.encodeUtf8(text)
    case Document(doc) => Prefixed(MarkdownToDocxPrefix, lib.saveDocument(doc))
    case Image(img) => Prefixed(ImagePrefix, lib.saveImage(img, if b.ImageFormatBranch? then b.target else ""))
    case Pdf(pdf) => Ok(pdf)
  }

  /** How the branch part of the `try` ends, before `send_file`. */
  datatype Production =
    | Declined(message: string)                   // an explicit 400 from an OCR branch
    | NoOutput                                    // no output assigned: the generic 400
    | Raised(message: string, outputLeft: bool)   // an exception; `outputLeft`: output file already created
    | Produced(content: Bytes)                    // the output file holds `content`

  ghost function ProductionOf(b: Branch, input: Bytes, lib: Library): (p: Production)
    ensures p.Declined? <==> IsRejection(b)
    ensures p.NoOutput? <==> b == NoBranch
    ensures p.Raised? || p.Produced? <==> OutputOf(b).Some?
  {
    if b == OcrTextRejected then Declined(OcrTextRejectMessage)
    else if b == OcrPdfRejected then Declined(OcrPdfRejectMessage)
    else if OutputOf(b).None? then NoOutput
    else
      match Prepare(b, input, lib)
      case Fault(m) => Raised(m, false)
      case Ok(prep) =>
        match Finish(b, prep, lib)
        case Fault(m) => Raised(m, true)
        case Ok(content) => Produced(content)
  }

  predicate PassesPreChecks(req: Request) {
    req.file.Some? && req.file.value.filename != ""
  }

  /** `file_ext`, from the sanitised file name. */
  function RequestExtension(req: Request, lib: Library): (ext: string)
    requires req.file.Some?
  {
    ExtensionOf(lib.secureFilename(req.file.value.filename))
  }

  function RouteOf(conversionType: string, req: Request, lib: Library): (b: Branch)
    requires req.file.Some?
  {
    Route(conversionType, RequestExtension(req, lib), req.targetFormat)
  }

  /** How the `try` answers once the branch has ended as `p`: an error body or the file sent. */
  ghost function Reply(b: Branch, p: Production, lib: Library, uniqueId: string): (r: Response)
    requires p.Produced? ==> OutputOf(b).Some?
    ensures r.Status() == 400 <==> p.Declined? || p.NoOutput?
    ensures r.Status() == 500 <==> p.Raised? || (p.Produced? && !r.Download?)
    ensures r.Status() == 500 ==> HasPrefix(r.error, FailurePrefix)
    ensures r.Download? ==> p.Produced?
  {
    match p
    case Declined(m) => ErrorReply(400, m)
    case NoOutput => ErrorReply(400, UnsupportedMessage)
    case Raised(m, _) => ErrorReply(500, FailurePrefix + m)
    case Produced(content) =>
      var o := OutputOf(b).value;
      var name := DownloadName(uniqueId, o);
      match lib.sendFile(content, name, o.mimetype)
      case Fault(m) => ErrorReply(500, FailurePrefix + m)
      case Ok(body) => Download(name, o.mimetype, body)
  }

  /** Whether a branch that ended as `p` leaves its output file behind. */
  ghost predicate Leaves(b: Branch, p: Production, lib: Library, uniqueId: string)
    requires p.Produced? ==> OutputOf(b).Some?
  {
    match p
    case Raised(_, left) => left
    case Produced(content) =>
      var o := OutputOf(b).value;
      lib.sendFile(content, DownloadName(uniqueId, o), o.mimetype).Fault?
    case _ => false
  }

  /** The response `handle_conversion` returns. */
  ghost function Expected(conversionType: string, req: Request, lib: Library, uniqueId: string): (r: Response)
    ensures r.Download? ==> PassesPreChecks(req)
    ensures r.ErrorReply? ==> r.error != ""
  {
    if req.file.None? then ErrorReply(400, NoFileMessage)
    else if req.file.value.filename == "" then ErrorReply(400, NoSelectionMessage)
    else
      var b := RouteOf(conversionType, req, lib);
      Reply(b, ProductionOf(b, req.file.value.payload, lib), lib, uniqueId)
  }

  /** Whether the request ends with its output file still in the temporary directory. */
  ghost predicate LeavesOutput(conversionType: string, req: Request, lib: Library, uniqueId: string) {
    PassesPreChecks(req) &&
    var b := RouteOf(conversionType, req, lib);
    Leaves(b, ProductionOf(b, req.file.value.payload, lib), lib, uniqueId)
  }

  /** The state a branch leaves for `send_file`. */
  datatype Staging = Refused(message: string) | Nothing | Failed(message: string) | Ready(path: string)

  /**
    The JSON-to-CSV branch up to its output: `json_to_csv` on the decoded
    content. The compiled counterpart of `PrepareJsonToCsvSpec`, which is
    ghost because `Tabulation` is; it calls the imperative `JsonToCsv`.
   */
  method PrepareJsonToCsv(input: Bytes, lib: Library) returns (p: Outcome<Prepared>)
    ensures p == PrepareJsonToCsvSpec(input, lib)
  {
    var content := lib.decodeUtf8(input);
    if content.Fault? {
      return Fault(content.message);
    }
    var data := Prefixed(JsonToCsvPrefix, lib.parseJson(content.value));
    if data.Fault? {
      return Fault(data.message);
    }
    var doc := JsonToCsv(data.value);
    if doc.Fault? {
      return Fault(doc.message);
    }
    p := Ok(Text(CsvText(doc.value, lib)));
  }

  /**
    The branch part of the `try`: run the converter, create the output
    file, give it its content. A fault after the file was created leaves it.
   */
  method RunBranch(b: Branch, input: Bytes, lib: Library, fs: TempDir) returns (s: Staging, ghost output: Option<string>)
    modifies fs
    ensures var p := ProductionOf(b, input, lib);
      && (p.Declined? ==> s == Refused(p.message))
      && (p.NoOutput? ==> s == Nothing)
      && (p.Raised? ==> s == Failed(p.message))
      && (p.Produced? ==> output.Some? && s == Ready(output.value))
      && (output.Some? <==> p.Produced? || (p.Raised? && p.outputLeft))
      && (output.None? ==> fs.files == old(fs.files) && fs.log == old(fs.log))
      && (output.Some? ==> output.value !in old(fs.files))
      && (p.Raised? && p.outputLeft ==>
            fs.files == old(fs.files)[output.value := []] && fs.log == old(fs.log) + [Created(output.value)])
      && (p.Produced? ==>
            fs.files == old(fs.files)[output.value := p.content]
            && fs.log == old(fs.log) + [Created(output.value), Written(output.value)])
  {
    output := None;
    if b == OcrTextRejected {
      return Refused(OcrTextRejectMessage), output;
    } else if b == OcrPdfRejected {
      return Refused(OcrPdfRejectMessage), output;
    } else if OutputOf(b).None? {
      return Nothing, output;
    }
    var prep: Outcome<Prepared>;
    if b == JsonToCsvBranch {
      prep := PrepareJsonToCsv(input, lib);
    } else {
      prep := PrepareOther(b, input, lib);
    }
    if prep.Fault? {
      return Failed(prep.message), output;
    }
    var path := fs.Create();
    output := Some(path);
    var content := Finish(b, prep.value, lib);
    if content.Fault? {
      return Failed(content.message), output;
    }
    fs.Write(path, content.value);
    s := Ready(path);
  }

  /**
    The end of the `try`: the error body for a branch that produced
    nothing, or `send_file` followed by removing the output file.
   */
  method Deliver(b: Branch, s: Staging, ghost p: Production, lib: Library, uniqueId: string, fs: TempDir)
    returns (r: Response)
    requires p.Produced? ==> OutputOf(b).Some?
    requires p.Declined? ==> s == Refused(p.message)
    requires p.NoOutput? ==> s == Nothing
    requires p.Raised? ==> s == Failed(p.message)
    requires p.Produced? ==> s.Ready? && s.path in fs.files && fs.files[s.path] == p.content
    modifies fs
    ensures r == Reply(b, p, lib, uniqueId)
    ensures r.Download? ==> p.Produced? && fs.files == old(fs.files) - {s.path} && fs.log == old(fs.log) + [Removed(s.path)]
    ensures !r.Download? ==> fs.files == old(fs.files) && fs.log == old(fs.log)
    ensures p.Produced? ==> (r.Download? <==> !Leaves(b, p, lib, uniqueId))
  {
    match s {
      case Refused(m) =>
        r := ErrorReply(400, m);
      case Nothing =>
        r := ErrorReply(400, UnsupportedMessage);
      case Failed(m) =>
        r := ErrorReply(500, FailurePrefix + m);
      case Ready(path) =>
        var o := OutputOf(b).value;
        var name := DownloadName(uniqueId, o);
        var sent := lib.sendFile(fs.files[path], name, o.mimetype);
        if sent.Fault? {
          r := ErrorReply(500, FailurePrefix + sent.message);
        } else {
          fs.Unlink(path);
          r := Download(name, o.mimetype, sent.value);
        }
    }
  }

  /**
    The `try` of `handle_conversion` after the input is staged: run the
    branch on the staged content and deliver its result. Only the output
    file can be added, and it stays exactly when the branch `Leaves` it.
   */
  method Attempt(b: Branch, input: Bytes, lib: Library, uniqueId: string, fs: TempDir)
    returns (r: Response, ghost output: Option<string>)
    modifies fs
    ensures r == Reply(b, ProductionOf(b, input, lib), lib, uniqueId)
    ensures old(fs.log) <= fs.log
    ensures forall p :: p in old(fs.files) ==> p in fs.files && fs.files[p] == old(fs.files)[p]
    ensures Leaves(b, ProductionOf(b, input, lib), lib, uniqueId) ==>
      output.Some? && output.value !in old(fs.files) && fs.files.Keys == old(fs.files).Keys + {output.value}
    ensures !Leaves(b, ProductionOf(b, input, lib), lib, uniqueId) ==> fs.files.Keys == old(fs.files).Keys
    ensures r.Download? ==>
      && output.Some?
      && fs.log == old(fs.log) + [Created(output.value), Written(output.value), Removed(output.value)]
  {
    ghost var p := ProductionOf(b, input, lib);
    var s;
    s, output := RunBranch(b, input, lib, fs);
    ghost var k := fs.files.Keys;
    ghost var log := fs.log;
    r := Deliver(b, s, p, lib, uniqueId, fs);
    assert Leaves(b, p, lib, uniqueId) <==> output.Some? && !r.Download?;
    assert r.Download? ==> fs.log == log + [Removed(output.value)];
  }

  /** Past the pre-checks, the response and what is left are those of the routed branch. */
  lemma ExpectedOfStaged(conversionType: string, req: Request, lib: Library, uniqueId: string)
    requires PassesPreChecks(req)
    ensures var b := RouteOf(conversionType, req, lib);
      var p := ProductionOf(b, req.file.value.payload, lib);
      && Expected(conversionType, req, lib, uniqueId) == Reply(b, p, lib, uniqueId)
      && LeavesOutput(conversionType, req, lib, uniqueId) == Leaves(b, p, lib, uniqueId)
  {
  }

  /**
    The `try` and `finally` of `handle_conversion` once the route is known:
    stage the upload, run the branch `b`, deliver, and remove the staged
    input.
   */
  method ConvertStaged(b: Branch, payload: Bytes, lib: Library, uniqueId: string, fs: TempDir)
    returns (r: Response, ghost staged: string, ghost output: Option<string>)
    modifies fs
    ensures r == Reply(b, ProductionOf(b, payload, lib), lib, uniqueId)
    ensures staged !in old(fs.files) && staged !in fs.files
    ensures |fs.log| >= |old(fs.log)| + 3
    ensures fs.log[|old(fs.log)|] == Created(staged) && fs.log[|fs.log| - 1] == Removed(staged)
    ensures forall p :: p in old(fs.files) ==> p in fs.files && fs.files[p] == old(fs.files)[p]
    ensures Leaves(b, ProductionOf(b, payload, lib), lib, uniqueId) ==>
      output.Some? && output.value !in old(fs.files) && fs.files.Keys == old(fs.files).Keys + {output.value}
    ensures !Leaves(b, ProductionOf(b, payload, lib), lib, uniqueId) ==> fs.files.Keys == old(fs.files).Keys
    ensures r.Download? ==>
      && output.Some?
      && fs.log == old(fs.log) + [Created(staged), Written(staged),
                                  Created(output.value), Written(output.value),
                                  Removed(output.value), Removed(staged)]
  {
    var input := fs.Stage(payload);
    staged := input;
    r, output := Attempt(b, fs.files[input], lib, uniqueId, fs);
    assert input in fs.files;
    ghost var log2 := fs.log;

    // finally:
    fs.RemoveIfExists(input);
    assert fs.log == log2 + [Removed(input)];
  }

  /**
    `handle_conversion(conversion_type)`. `uniqueId` stands for the first
    eight characters of a fresh UUID. `staged` and `output` name the input
    file staged and the output file created, if any.
   */
  method HandleConversion(conversionType: string, req: Request, lib: Library, uniqueId: string, fs: TempDir)
    returns (r: Response, ghost staged: Option<string>, ghost output: Option<string>)
    modifies fs
    ensures r == Expected(conversionType, req, lib, uniqueId)
    // the pre-checks reject before anything is staged
    ensures staged.None? <==> !PassesPreChecks(req)
    ensures staged.None? ==> output.None? && fs.files == old(fs.files) && fs.log == old(fs.log)
    // the staged input is new, is the first file created, and is removed last, on every path
    ensures staged.Some? ==>
      && staged.value !in old(fs.files) && staged.value !in fs.files
      && |fs.log| >= |old(fs.log)| + 3
      && fs.log[|old(fs.log)|] == Created(staged.value)
      && fs.log[|fs.log| - 1] == Removed(staged.value)
    // nothing that existed before is touched
    ensures forall p :: p in old(fs.files) ==> p in fs.files && fs.files[p] == old(fs.files)[p]
    // the only file that can remain is the output, and only when the request leaves it
    ensures LeavesOutput(conversionType, req, lib, uniqueId) ==> output.Some? && output.value !in old(fs.files)
    ensures LeavesOutput(conversionType, req, lib, uniqueId) ==> fs.files.Keys == old(fs.files).Keys + {output.value}
    ensures !LeavesOutput(conversionType, req, lib, uniqueId) ==> fs.files.Keys == old(fs.files).Keys
    // on success: input created and written, output created and written, output removed, input removed
    ensures r.Download? ==>
      && staged.Some? && output.Some?
      && fs.log == old(fs.log) + [Created(staged.value), Written(staged.value),
                                  Created(output.value), Written(output.value),
                                  Removed(output.value), Removed(staged.value)]
  {
    staged, output := None, None;
    if req.file.None? {
      return ErrorReply(400, NoFileMessage), staged, output;
    }
    if req.file.value.filename == "" {
      return ErrorReply(400, NoSelectionMessage), staged, output;
    }
    var upload := req.file.value;
    var filename := lib.secureFilename(upload.filename);
    var fileExt := ExtensionOf(filename);
    // the branch chain reads only the token, the extension and the form, so it is chosen here
    var b := Route(conversionType, fileExt, req.targetFormat);
    ghost var input;
    r, input, output := ConvertStaged(b, upload.payload, lib, uniqueId, fs);
    staged := Some(input);
    ExpectedOfStaged(conversionType, req, lib, uniqueId);
  }
}
