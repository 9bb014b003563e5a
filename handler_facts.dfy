/**
  What `handle_conversion` promises about its responses, stated over the
  response function `Expected` that `HandleConversion` is proved to return.
 */
module HandlerFacts {
  import opened Common
  import opened Registry
  import opened JsonCsv
  import opened Routing
  import opened Handler

  /** The route answers 200 with a file, or 400 or 500 with an error body. */
  lemma StatusCodes(conversionType: string, req: Request, lib: Library, uniqueId: string)
    ensures var s := Expected(conversionType, req, lib, uniqueId).Status();
      s == 200 || s == 400 || s == 500
  {
  }

  /** A missing `file` field and an empty file name are refused before anything is staged. */
  lemma PreChecksRefuse(conversionType: string, req: Request, lib: Library, uniqueId: string)
    requires !PassesPreChecks(req)
    ensures var r := Expected(conversionType, req, lib, uniqueId);
      && (req.file.None? ==> r == ErrorReply(400, NoFileMessage))
      && (req.file.Some? ==> r == ErrorReply(400, NoSelectionMessage))
      && !LeavesOutput(conversionType, req, lib, uniqueId)
  {
  }

  /**
    400 exactly when the pre-checks fail or the route assigns no output
    (an OCR rejection or the generic fallthrough), and the body of a 400
    is always one of the five fixed messages.
   */
  lemma BadRequestIff(conversionType: string, req: Request, lib: Library, uniqueId: string)
    ensures var r := Expected(conversionType, req, lib, uniqueId);
      && (r.Status() == 400 <==> !PassesPreChecks(req) || OutputOf(RouteOf(conversionType, req, lib)).None?)
      && (r.Status() == 400 ==>
            r.error == NoFileMessage || r.error == NoSelectionMessage || r.error == UnsupportedMessage
            || r.error == OcrTextRejectMessage || r.error == OcrPdfRejectMessage)
  {
  }

  /**
    A 500 comes only from a route that assigns an output, and its body is
    the failure prefix before the message of what was raised.
   */
  lemma ServerErrorShape(conversionType: string, req: Request, lib: Library, uniqueId: string)
    ensures var r := Expected(conversionType, req, lib, uniqueId);
      r.Status() == 500 ==>
        && PassesPreChecks(req)
        && OutputOf(RouteOf(conversionType, req, lib)).Some?
        && |FailurePrefix| <= |r.error|
        && r.error[..|FailurePrefix|] == FailurePrefix
  {
    var r := Expected(conversionType, req, lib, uniqueId);
    if r.Status() == 500 {
      var m := r.error[|FailurePrefix|..];
      assert r.error == FailurePrefix + m;
    }
  }

  /**
    Any converter fault answers 500 with the failure prefix before the
    converter's message. A fault before the output file exists leaves
    nothing behind; a fault after leaves the output file.
   */
  lemma ConverterFaultIsServerError(conversionType: string, req: Request, lib: Library, uniqueId: string)
    requires PassesPreChecks(req)
    ensures var b := RouteOf(conversionType, req, lib);
      var input := req.file.value.payload;
      var r := Expected(conversionType, req, lib, uniqueId);
      && (ProductionOf(b, input, lib).Raised? ==>
            r == ErrorReply(500, FailurePrefix + ProductionOf(b, input, lib).message))
      && (OutputOf(b).Some? && Prepare(b, input, lib).Fault? ==>
            && r == ErrorReply(500, FailurePrefix + Prepare(b, input, lib).message)
            && !LeavesOutput(conversionType, req, lib, uniqueId))
      && (OutputOf(b).Some? && Prepare(b, input, lib).Ok? && Finish(b, Prepare(b, input, lib).value, lib).Fault? ==>
            && r == ErrorReply(500, FailurePrefix + Finish(b, Prepare(b, input, lib).value, lib).message)
            && LeavesOutput(conversionType, req, lib, uniqueId))
  {
  }

  /**
    A download happens exactly when the branch produced its content and
    `send_file` succeeded; a failed `send_file` answers 500 and leaves the
    output file.
   */
  lemma DownloadIff(conversionType: string, req: Request, lib: Library, uniqueId: string)
    requires PassesPreChecks(req)
    ensures var b := RouteOf(conversionType, req, lib);
      var p := ProductionOf(b, req.file.value.payload, lib);
      var r := Expected(conversionType, req, lib, uniqueId);
      && (r.Download? <==>
            p.Produced? &&
            var o := OutputOf(b).value;
            lib.sendFile(p.content, DownloadName(uniqueId, o), o.mimetype).Ok?)
      && (p.Produced? ==>
            var o := OutputOf(b).value;
            var sent := lib.sendFile(p.content, DownloadName(uniqueId, o), o.mimetype);
            && (sent.Ok? ==> r == Download(DownloadName(uniqueId, o), o.mimetype, sent.value))
            && (sent.Fault? ==>
                  r == ErrorReply(500, FailurePrefix + sent.message)
                  && LeavesOutput(conversionType, req, lib, uniqueId)))
  {
  }

  /**
    Which refusal gives which message: an OCR token with a non-image
    extension gets its own message; an unknown token, or a bidirectional
    token with an extension of neither direction, gets the generic one.
   */
  lemma RefusalMessages(conversionType: string, req: Request, lib: Library, uniqueId: string)
    requires PassesPreChecks(req)
    ensures var ext := RequestExtension(req, lib);
      var r := Expected(conversionType, req, lib, uniqueId);
      && (conversionType == "image-to-text-ocr" && ext !in Category("image") ==>
            r == ErrorReply(400, OcrTextRejectMessage))
      && (conversionType == "image-to-searchable-pdf-ocr" && ext !in Category("image") ==>
            r == ErrorReply(400, OcrPdfRejectMessage))
      && (conversionType !in Tokens ==> r == ErrorReply(400, UnsupportedMessage))
      && ((conversionType == "json-csv" || conversionType == "markdown-docx")
          && (conversionType, ext) !in DirectionTable ==>
            r == ErrorReply(400, UnsupportedMessage))
  {
    var ext := RequestExtension(req, lib);
    if conversionType == "json-csv" || conversionType == "markdown-docx" {
      BidirectionalMatchesTable(conversionType, ext, req.targetFormat);
    }
  }

  /**
    A download is named `converted_<id>.<suffix>` and carries the media
    type of the branch the request was routed to.
   */
  lemma SuccessIdentity(conversionType: string, req: Request, lib: Library, uniqueId: string)
    ensures var r := Expected(conversionType, req, lib, uniqueId);
      r.Download? ==>
        && PassesPreChecks(req)
        && OutputOf(RouteOf(conversionType, req, lib)).Some?
        && var o := OutputOf(RouteOf(conversionType, req, lib)).value;
           r.downloadName == "converted_" + uniqueId + "." + o.suffix && r.mimetype == o.mimetype
  {
  }

  /**
    A request whose route assigns no output never reaches a converter or
    `send_file`: two libraries that sanitise its file name alike give the
    same response, and no output file is left.
   */
  lemma RefusalIgnoresConverters(conversionType: string, req: Request, lib1: Library, lib2: Library, uniqueId: string)
    requires PassesPreChecks(req)
    requires lib1.secureFilename(req.file.value.filename) == lib2.secureFilename(req.file.value.filename)
    requires OutputOf(RouteOf(conversionType, req, lib1)).None?
    ensures Expected(conversionType, req, lib1, uniqueId) == Expected(conversionType, req, lib2, uniqueId)
    ensures !LeavesOutput(conversionType, req, lib1, uniqueId) && !LeavesOutput(conversionType, req, lib2, uniqueId)
  {
    assert RouteOf(conversionType, req, lib1) == RouteOf(conversionType, req, lib2);
  }

  /** An output file stays in the temporary directory only when the request answers 500. */
  lemma LeakOnlyOnServerError(conversionType: string, req: Request, lib: Library, uniqueId: string)
    ensures LeavesOutput(conversionType, req, lib, uniqueId) ==>
      Expected(conversionType, req, lib, uniqueId).Status() == 500
    ensures Expected(conversionType, req, lib, uniqueId).Download? ==>
      !LeavesOutput(conversionType, req, lib, uniqueId)
  {
  }

  /**
    A JSON upload whose parsed value is neither an object nor a list
    answers 500 with the shape message, and leaves no output file, since
    `json_to_csv` raises before the output file is created.
   */
  lemma JsonScalarIsServerError(req: Request, lib: Library, uniqueId: string, content: string, v: Json)
    requires PassesPreChecks(req)
    requires RequestExtension(req, lib) == "json"
    requires lib.decodeUtf8(req.file.value.payload) == Ok(content)
    requires lib.parseJson(content) == Ok(v)
    requires !v.JArray? && !v.JObject?
    ensures Expected("json-csv", req, lib, uniqueId) == ErrorReply(500, FailurePrefix + ShapeError)
    ensures !LeavesOutput("json-csv", req, lib, uniqueId)
  {
    ScalarRejected(v);
  }

  /**
    An upload the decoder refuses fails before any output exists: 500 with
    the decoder's message, unprefixed by the converter, and nothing left.
   */
  lemma UndecodableJsonIsServerError(req: Request, lib: Library, uniqueId: string, m: string)
    requires PassesPreChecks(req)
    requires RequestExtension(req, lib) == "json"
    requires lib.decodeUtf8(req.file.value.payload) == Fault(m)
    ensures Expected("json-csv", req, lib, uniqueId) == ErrorReply(500, FailurePrefix + m)
    ensures !LeavesOutput("json-csv", req, lib, uniqueId)
  {
  }

  /**
    A JSON list that converts: the download is the CSV text, BOM first,
    named `.csv`, unless `send_file` fails.
   */
  lemma JsonToCsvDownload(req: Request, lib: Library, uniqueId: string, content: string, items: seq<Json>, bytes: Bytes, body: Bytes)
    requires PassesPreChecks(req)
    requires RequestExtension(req, lib) == "json"
    requires lib.decodeUtf8(req.file.value.payload) == Ok(content)
    requires lib.parseJson(content) == Ok(JArray(items))
    requires items != []
    requires var t := Tabulation(JArray(items)).value;
      lib.encodeUtf8(Bom + lib.formatCsv(t.header, t.rows)) == Ok(bytes)
    requires lib.sendFile(bytes, "converted_" + uniqueId + ".csv", "text/csv") == Ok(body)
    ensures Expected("json-csv", req, lib, uniqueId) == Download("converted_" + uniqueId + ".csv", "text/csv", body)
  {
    TableShape(items);
    var b := RouteOf("json-csv", req, lib);
    assert b == JsonToCsvBranch;
    var t := Tabulation(JArray(items)).value;
    assert PrepareJsonToCsvSpec(req.file.value.payload, lib) == Ok(Text(Bom + lib.formatCsv(t.header, t.rows)));
    assert ProductionOf(b, req.file.value.payload, lib) == Produced(bytes);
    assert DownloadName(uniqueId, Output("csv", "text/csv")) == "converted_" + uniqueId + ".csv";
    ExpectedOfStaged("json-csv", req, lib, uniqueId);
  }
}
