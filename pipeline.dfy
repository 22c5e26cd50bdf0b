/**
 * `uploadFileHandler`: the fail-fast pipeline that takes one CV upload
 * through the field checks, the extension check, the scratch copy, the
 * size limit, the virus scan, the conversion to PDF, the upload to object
 * storage and the token.
 *
 * Everything outside the handler is an input here: the form values, the
 * outcome of each I/O call that can fail, the scratch directory that
 * `os.MkdirTemp` picks, the formatted time, what the scanner printed and
 * whether converting and storing succeeded. `Handle` is the handler's
 * specification as a function of those inputs; `UploadFileHandler` is the
 * handler itself, step by step, over a scratch directory.
 */
module Pipeline {
  import opened Wrappers
  import opened GoStrings
  import opened GoFilepath
  import opened HexEncoding
  import opened UploadRules

  /* ---------------------------------------------------------------------- */
  /* Inputs and outcomes                                                     */
  /* ---------------------------------------------------------------------- */

  /** The `cvFile` part: its file name and the number of bytes it holds. */
  datatype FilePart = FilePart(filename: string, size: nat)

  /** The form values of one request. */
  datatype Request = Request(userUUID: string, firstName: string, lastName: string, cvFile: Option<FilePart>)

  /** The configuration read at start-up: storage endpoint, bucket name and token secret. */
  datatype Config = Config(endpoint: string, bucket: string, secret: string)

  /** The I/O calls whose error the handler returns as it is. */
  datatype IoStep =
    | OpenUpload     // file.Open on the uploaded part
    | MakeTempDir    // os.MkdirTemp
    | CreateScratch  // os.Create of the scratch file
    | CopyUpload     // io.Copy into the scratch file
    | StatScratch    // dst.Stat

  /**
   * What the environment does during one request: the I/O call that fails,
   * if any; the elements of the rooted scratch directory path; the
   * formatted time; the scanner's run; whether the converter and the store
   * succeed.
   */
  datatype World = World(
    fault: Option<IoStep>,
    tempDir: seq<string>,
    timestamp: string,
    scan: ToolRun,
    converted: bool,
    stored: bool)

  /**
   * The scratch directory is a rooted path of ordinary elements (what
   * `os.MkdirTemp("", ...)` returns under the usual temporary directory),
   * and the time is formatted as digits and dashes.
   */
  predicate ValidWorld(w: World)
  {
    |w.tempDir| >= 1 &&
    (forall i :: 0 <= i < |w.tempDir| ==> Plain(w.tempDir[i])) &&
    IsTimestamp(w.timestamp)
  }

  /**
   * The handler's reply: a JSON error with status 400 or 500, an error
   * returned to the framework (which answers 500), or the 200 reply.
   */
  datatype Response =
    | BadRequest(error: string)
    | ServerError(error: string)
    | InternalError(step: IoStep)
    | Ok(fileURL: string, filePath: string, token: string)

  function Status(r: Response): int
  {
    match r
    case BadRequest(_) => 400
    case ServerError(_) => 500
    case InternalError(_) => 500
    case Ok(_, _, _) => 200
  }

  /** The external tools and services the handler calls, with the path it gives them. */
  datatype Call = Scan(path: string) | Convert(path: string) | Store(path: string)

  /** One request's outcome: the reply, the external calls in order, and whether the scratch directory was made. */
  datatype Run = Run(response: Response, calls: seq<Call>, madeTempDir: bool)

  const MsgFieldsRequired: string := "User UUID, First Name, and Last Name are required"
  const MsgNoFilePart: string := "No file part"
  const MsgNoSelectedFile: string := "No selected file"
  const MsgTypeNotAllowed: string := "File type not allowed"
  const MsgTooLarge: string := "File size exceeds limit"
  const MsgInfected: string := "File might be infected"
  const MsgConvertFailed: string := "Failed to convert file to PDF"
  const MsgUploadFailed: string := "Failed to upload file to S3"

  predicate FieldsPresent(req: Request)
  {
    req.userUUID != "" && req.firstName != "" && req.lastName != ""
  }

  /** The request passes every check the handler makes before it touches the file system. */
  predicate Admissible(req: Request)
  {
    FieldsPresent(req) && req.cvFile.Some? && req.cvFile.value.filename != "" &&
    AllowedFile(req.cvFile.value.filename)
  }

  /** The path of the scratch copy of the upload. */
  function ScratchPath(req: Request, w: World): string
    requires req.cvFile.Some?
  {
    Join(RootedPath(w.tempDir), ScratchName(req.firstName, req.lastName, w.timestamp, req.cvFile.value.filename))
  }

  /** The path of the scratch copy as the handler builds it, with only spaces replaced in the names. */
  function ScratchPathAsWritten(req: Request, w: World): (r: string)
    requires req.cvFile.Some?
    ensures Separator !in req.firstName && Separator !in req.lastName ==> r == ScratchPath(req, w)
  {
    var file := req.cvFile.value.filename;
    var path := Join(RootedPath(w.tempDir), ScratchNameAsWritten(req.firstName, req.lastName, w.timestamp, file));
    if Separator !in req.firstName && Separator !in req.lastName then
      ScratchNameAgreesWithSource(req.firstName, req.lastName, w.timestamp, file);
      path
    else path
  }

  /* ---------------------------------------------------------------------- */
  /* The handler as a function of its inputs                                 */
  /* ---------------------------------------------------------------------- */

  function Handle(req: Request, cfg: Config, mac: Mac, w: World): (r: Run)
    ensures r.madeTempDir ==> Admissible(req)
    ensures r.calls != [] <==> Admissible(req) && w.fault.None? && req.cvFile.value.size <= MaxFileSize
    ensures r.response.Ok? ==> r.calls != []
  {
    if !FieldsPresent(req) then Run(BadRequest(MsgFieldsRequired), [], false)
    else if req.cvFile.None? then Run(BadRequest(MsgNoFilePart), [], false)
    else if req.cvFile.value.filename == "" then Run(BadRequest(MsgNoSelectedFile), [], false)
    else if !AllowedFile(req.cvFile.value.filename) then Run(BadRequest(MsgTypeNotAllowed), [], false)
    else if w.fault == Some(OpenUpload) || w.fault == Some(MakeTempDir) then Run(InternalError(w.fault.value), [], false)
    else if w.fault.Some? then Run(InternalError(w.fault.value), [], true)
    else if req.cvFile.value.size > MaxFileSize then Run(BadRequest(MsgTooLarge), [], true)
    else Stages(req.userUUID, cfg, mac, w, ScratchPath(req, w))
  }

  /** The stages from the virus scan on, for the scratch copy at `path`. */
  function Stages(userUUID: string, cfg: Config, mac: Mac, w: World, path: string): (r: Run)
    ensures r.madeTempDir && |r.calls| >= 1 && r.calls[0] == Scan(path)
    ensures r.response != BadRequest(MsgTooLarge)
    ensures r.response.Ok? ==> ScanClean(w.scan) && w.stored
  {
    if !ScanClean(w.scan) then Run(BadRequest(MsgInfected), [Scan(path)], true)
    else if !NeedsConversion(path) then Deliver(userUUID, cfg, mac, w, path, [Scan(path)])
    else if !w.converted then Run(ServerError(MsgConvertFailed), [Scan(path), Convert(path)], true)
    else Deliver(userUUID, cfg, mac, w, ConvertedPath(path), [Scan(path), Convert(path)])
  }

  /** The upload of the final file `path` after the external calls `before`, and the token. */
  function Deliver(userUUID: string, cfg: Config, mac: Mac, w: World, path: string, before: seq<Call>): (r: Run)
    ensures r.calls == before + [Store(path)] && r.madeTempDir
    ensures r.response.Ok? <==> w.stored
    ensures r.response.Ok? ==>
      r.response.filePath == path && r.response.fileURL == ObjectURL(cfg.endpoint, cfg.bucket, Base(path))
    ensures !r.response.Ok? ==> r.response == ServerError(MsgUploadFailed)
  {
    var response :=
      match UploadToS3(cfg.endpoint, cfg.bucket, path, w.stored)
      case None => ServerError(MsgUploadFailed)
      case Some(url) => Ok(url, path, GenerateToken(mac, cfg.secret, userUUID, path, url));
    Run(response, before + [Store(path)], true)
  }

  /**
   * The handler with the scratch name built as the source builds it, where
   * only spaces are replaced in the names: it differs from `Handle` only in
   * the path it hands to the stages.
   */
  function HandleAsWritten(req: Request, cfg: Config, mac: Mac, w: World): (r: Run)
    ensures r.calls != [] <==> Admissible(req) && w.fault.None? && req.cvFile.value.size <= MaxFileSize
    ensures r.response.Ok? ==> r.calls != [] && ScanClean(w.scan) && w.stored
  {
    if Admissible(req) && w.fault.None? && req.cvFile.value.size <= MaxFileSize
    then Stages(req.userUUID, cfg, mac, w, ScratchPathAsWritten(req, w))
    else Handle(req, cfg, mac, w)
  }

  /* ---------------------------------------------------------------------- */
  /* Properties of the pipeline                                              */
  /* ---------------------------------------------------------------------- */

  /**
   * The scratch directory is made exactly when the request passed the field,
   * file and extension checks and the upload could be opened; a request
   * rejected by those checks is answered 400 with no external call.
   */
  lemma ScratchDirOnlyAfterValidation(req: Request, cfg: Config, mac: Mac, w: World)
    ensures Handle(req, cfg, mac, w).madeTempDir <==>
      Admissible(req) && w.fault != Some(OpenUpload) && w.fault != Some(MakeTempDir)
    ensures !Admissible(req) ==>
      Status(Handle(req, cfg, mac, w).response) == 400 && Handle(req, cfg, mac, w).calls == []
  {
  }

  /** Past the checks and the scratch copy, the handler runs the stages on the scratch path. */
  lemma HandleRunsStages(req: Request, cfg: Config, mac: Mac, w: World)
    requires Admissible(req) && w.fault.None? && req.cvFile.value.size <= MaxFileSize
    ensures Handle(req, cfg, mac, w) == Stages(req.userUUID, cfg, mac, w, ScratchPath(req, w))
  {
  }

  /** The size limit is strict: a file of exactly `MaxFileSize` bytes goes on to be scanned. */
  lemma SizeLimitIsStrict(req: Request, cfg: Config, mac: Mac, w: World)
    requires Admissible(req) && w.fault.None?
    ensures Handle(req, cfg, mac, w).response == BadRequest(MsgTooLarge) <==> req.cvFile.value.size > MaxFileSize
    ensures req.cvFile.value.size <= MaxFileSize ==>
      |Handle(req, cfg, mac, w).calls| >= 1 && Handle(req, cfg, mac, w).calls[0] == Scan(ScratchPath(req, w))
  {
    if req.cvFile.value.size <= MaxFileSize {
      HandleRunsStages(req, cfg, mac, w);
    }
  }

  /** An unclean verdict, tool errors included, is answered 400 "File might be infected" and stops the pipeline. */
  lemma UncleanScanStops(req: Request, cfg: Config, mac: Mac, w: World)
    requires Admissible(req) && w.fault.None? && req.cvFile.value.size <= MaxFileSize
    requires !ScanClean(w.scan)
    ensures Handle(req, cfg, mac, w).response == BadRequest(MsgInfected)
    ensures Handle(req, cfg, mac, w).calls == [Scan(ScratchPath(req, w))]
  {
    HandleRunsStages(req, cfg, mac, w);
  }

  /**
   * In the stages, the store is called only after a clean scan, with a path
   * whose extension is exactly ".pdf", and as the last external call.
   */
  lemma StagesStoreOnlyAfterCleanScanOfPdf(userUUID: string, cfg: Config, mac: Mac, w: World, path: string, i: int)
    requires 0 <= i < |Stages(userUUID, cfg, mac, w, path).calls|
    requires Stages(userUUID, cfg, mac, w, path).calls[i].Store?
    ensures var calls := Stages(userUUID, cfg, mac, w, path).calls;
      ScanClean(w.scan) && i >= 1 && calls[0] == Scan(path) && i == |calls| - 1 &&
      Ext(calls[i].path) == ".pdf" &&
      (NeedsConversion(path) ==> w.converted && calls[i - 1] == Convert(path))
  {
    var calls := Stages(userUUID, cfg, mac, w, path).calls;
    assert ScanClean(w.scan);
    if NeedsConversion(path) {
      assert w.converted;
      assert calls == [Scan(path), Convert(path), Store(ConvertedPath(path))];
    } else {
      assert calls == [Scan(path), Store(path)];
    }
  }

  /**
   * The store is called only after a clean scan, with a path whose extension
   * is exactly ".pdf", and as the last external call.
   */
  lemma StoreOnlyAfterCleanScanOfPdf(req: Request, cfg: Config, mac: Mac, w: World, i: int)
    requires 0 <= i < |Handle(req, cfg, mac, w).calls|
    requires Handle(req, cfg, mac, w).calls[i].Store?
    ensures Admissible(req) && w.fault.None? && req.cvFile.value.size <= MaxFileSize
    ensures ScanClean(w.scan)
    ensures i >= 1 && Handle(req, cfg, mac, w).calls[0] == Scan(ScratchPath(req, w))
    ensures i == |Handle(req, cfg, mac, w).calls| - 1
    ensures Ext(Handle(req, cfg, mac, w).calls[i].path) == ".pdf"
    ensures NeedsConversion(ScratchPath(req, w)) ==>
      w.converted && Handle(req, cfg, mac, w).calls[i - 1] == Convert(ScratchPath(req, w))
  {
    assert Admissible(req) && w.fault.None? && req.cvFile.value.size <= MaxFileSize;
    HandleRunsStages(req, cfg, mac, w);
    StagesStoreOnlyAfterCleanScanOfPdf(req.userUUID, cfg, mac, w, ScratchPath(req, w), i);
  }

  /** How many of `calls` are calls to the converter. */
  function Conversions(calls: seq<Call>): (n: nat)
    ensures n <= |calls|
    ensures n == 0 <==> forall i :: 0 <= i < |calls| ==> !calls[i].Convert?
  {
    if calls == [] then 0
    else (if calls[0].Convert? then 1 else 0) + Conversions(calls[1..])
  }

  /** In the stages after a clean scan, conversion runs once, right after the scan, exactly when it is needed. */
  lemma StagesConvertOnceUnlessPdf(userUUID: string, cfg: Config, mac: Mac, w: World, path: string)
    requires ScanClean(w.scan)
    ensures var calls := Stages(userUUID, cfg, mac, w, path).calls;
      Conversions(calls) == (if NeedsConversion(path) then 1 else 0) &&
      (NeedsConversion(path) ==> calls[1] == Convert(path))
  {
    var calls := Stages(userUUID, cfg, mac, w, path).calls;
    if !NeedsConversion(path) {
      assert calls == [Scan(path), Store(path)];
      assert calls[1..][1..] == [];
    } else if !w.converted {
      assert calls == [Scan(path), Convert(path)];
      assert calls[1..][1..] == [];
    } else {
      assert calls == [Scan(path), Convert(path), Store(ConvertedPath(path))];
      assert calls[1..][1..][1..] == [];
    }
  }

  /**
   * Conversion runs exactly when the scratch path's extension is not
   * exactly ".pdf", then once and right after the scan.
   */
  lemma ConvertOnceUnlessPdf(req: Request, cfg: Config, mac: Mac, w: World)
    requires Admissible(req) && w.fault.None? && req.cvFile.value.size <= MaxFileSize && ScanClean(w.scan)
    ensures var calls := Handle(req, cfg, mac, w).calls;
      Conversions(calls) == (if NeedsConversion(ScratchPath(req, w)) then 1 else 0) &&
      (NeedsConversion(ScratchPath(req, w)) ==> calls[1] == Convert(ScratchPath(req, w)))
  {
    HandleRunsStages(req, cfg, mac, w);
    StagesConvertOnceUnlessPdf(req.userUUID, cfg, mac, w, ScratchPath(req, w));
  }

  /** What a successful run of the stages did: the file it stored, where, and the calls before. */
  lemma StagesSucceeded(userUUID: string, cfg: Config, mac: Mac, w: World, path: string)
    requires Stages(userUUID, cfg, mac, w, path).response.Ok?
    ensures var r := Stages(userUUID, cfg, mac, w, path);
      var final := if NeedsConversion(path) then ConvertedPath(path) else path;
      ScanClean(w.scan) && w.stored && (NeedsConversion(path) ==> w.converted) &&
      r.response.filePath == final &&
      r.response.fileURL == ObjectURL(cfg.endpoint, cfg.bucket, Base(final)) &&
      r.response.token == GenerateToken(mac, cfg.secret, userUUID, final, r.response.fileURL) &&
      r.calls == (if NeedsConversion(path) then [Scan(path), Convert(path)] else [Scan(path)]) + [Store(final)]
  {
  }

  /**
   * A token is issued only after the store accepted the file: the reply
   * carries the stored path, the URL of its base name in the bucket, and
   * the hex of the MAC over the three fields.
   */
  lemma TokenOnlyAfterStore(req: Request, cfg: Config, mac: Mac, w: World)
    requires Handle(req, cfg, mac, w).response.Ok?
    ensures w.stored && ScanClean(w.scan)
    ensures var r := Handle(req, cfg, mac, w);
      |r.calls| >= 2 && r.calls[|r.calls| - 1] == Store(r.response.filePath) &&
      r.response.fileURL == ObjectURL(cfg.endpoint, cfg.bucket, Base(r.response.filePath)) &&
      |r.response.token| == 64 &&
      DecodeString(r.response.token) == Some(mac(cfg.secret, TokenMessage(req.userUUID, r.response.filePath, r.response.fileURL)))
  {
    assert Admissible(req) && w.fault.None? && req.cvFile.value.size <= MaxFileSize;
    HandleRunsStages(req, cfg, mac, w);
    StagesSucceeded(req.userUUID, cfg, mac, w, ScratchPath(req, w));
  }

  /**
   * A successful reply names a ".pdf" file directly inside the scratch
   * directory, and the object key is that file's name.
   */
  lemma SuccessIsPdfInScratchDir(req: Request, cfg: Config, mac: Mac, w: World)
    requires ValidWorld(w)
    requires Handle(req, cfg, mac, w).response.Ok?
    ensures var r := Handle(req, cfg, mac, w).response;
      Ext(r.filePath) == ".pdf" &&
      r.filePath == RootedPath(w.tempDir) + [Separator] + Base(r.filePath) &&
      Plain(Base(r.filePath)) &&
      r.fileURL == ObjectURL(cfg.endpoint, cfg.bucket, Base(r.filePath))
  {
    assert Admissible(req) && w.fault.None? && req.cvFile.value.size <= MaxFileSize;
    HandleRunsStages(req, cfg, mac, w);
    var name := ScratchName(req.firstName, req.lastName, w.timestamp, req.cvFile.value.filename);
    var path := ScratchPath(req, w);
    StagesSucceeded(req.userUUID, cfg, mac, w, path);
    ScratchNameIsPlain(req.firstName, req.lastName, w.timestamp, req.cvFile.value.filename);
    AllowedNameHasExtension(req, w);
    ScratchFileFacts(w.tempDir, name);
  }

  /** Where neither name holds a separator, the model's handler is the handler as written. */
  lemma HandleAgreesWithSource(req: Request, cfg: Config, mac: Mac, w: World)
    requires Separator !in req.firstName && Separator !in req.lastName
    ensures Handle(req, cfg, mac, w) == HandleAsWritten(req, cfg, mac, w)
  {
    if Admissible(req) && w.fault.None? && req.cvFile.value.size <= MaxFileSize {
      HandleRunsStages(req, cfg, mac, w);
      ScratchNameAgreesWithSource(req.firstName, req.lastName, w.timestamp, req.cvFile.value.filename);
      assert ScratchPath(req, w) == ScratchPathAsWritten(req, w);
    }
  }

  /**
   * As written, a ".pdf" upload from first name "../rest" that is answered
   * 200 names a file outside the scratch directory, which the deferred
   * removal of that directory leaves behind.
   */
  lemma AsWrittenSuccessEscapesScratchDir(req: Request, cfg: Config, mac: Mac, w: World, rest: string)
    requires ValidWorld(w)
    requires req.firstName == ".." + [Separator] + rest && Separator !in rest && Separator !in req.lastName
    requires req.cvFile.Some? && Ext(req.cvFile.value.filename) == ".pdf"
    requires HandleAsWritten(req, cfg, mac, w).response.Ok?
    ensures !Beneath(HandleAsWritten(req, cfg, mac, w).response.filePath, RootedPath(w.tempDir))
  {
    var file := req.cvFile.value.filename;
    var path := ScratchPathAsWritten(req, w);
    assert Admissible(req) && w.fault.None? && req.cvFile.value.size <= MaxFileSize;
    ScratchPathEscapesScratchDir(w.tempDir, rest, req.lastName, w.timestamp, file);
    ScratchNameKeepsExtension(rest, req.lastName, w.timestamp, file);
    var es := w.tempDir[..|w.tempDir| - 1];
    ExtOfRootedPath(es, ScratchName(rest, req.lastName, w.timestamp, file));
    assert !NeedsConversion(path);
    StagesSucceeded(req.userUUID, cfg, mac, w, path);
  }

  /** The scratch name of an admissible request keeps its non-empty extension. */
  lemma AllowedNameHasExtension(req: Request, w: World)
    requires Admissible(req)
    ensures Ext(ScratchName(req.firstName, req.lastName, w.timestamp, req.cvFile.value.filename)) != ""
  {
    var e := Ext(req.cvFile.value.filename);
    assert |ToLower(e)| == |e|;
  }

  /**
   * For a plain name in the scratch directory: its path, base name, and the
   * path, base name and extension of its converted copy.
   */
  lemma ScratchFileFacts(tempDir: seq<string>, name: string)
    requires |tempDir| >= 1 && forall i :: 0 <= i < |tempDir| ==> Plain(tempDir[i])
    requires Plain(name) && Ext(name) != ""
    ensures var path := Join(RootedPath(tempDir), name);
      path == RootedPath(tempDir) + [Separator] + name &&
      Base(path) == name &&
      ConvertedPath(path) == RootedPath(tempDir) + [Separator] + Base(ConvertedPath(path)) &&
      Plain(Base(ConvertedPath(path))) &&
      Ext(ConvertedPath(path)) == ".pdf" &&
      Ext(path) == Ext(name) &&
      (NeedsConversion(path) ==> Base(ConvertedPath(path)) != name)
  {
    var dir := RootedPath(tempDir);
    JoinPlainChild(tempDir, name);
    BaseOfChild(dir, name);
    ExtOfChild(dir, name);
    ConvertedPathOfChild(dir, name);
    if NeedsConversion(dir + [Separator] + name) {
      ConvertedPathDiffers(dir + [Separator] + name);
    }
  }

  /* ---------------------------------------------------------------------- */
  /* End-to-end scenarios                                                    */
  /* ---------------------------------------------------------------------- */

  /** The two upload names the scenarios use are accepted, with the extensions they show. */
  lemma ResumeNames()
    ensures AllowedFile("resume.pdf") && Ext("resume.pdf") == ".pdf"
    ensures AllowedFile("resume.docx") && Ext("resume.docx") == ".docx"
  {
    AllowedFileOfSuffixed("resume", ".pdf");
    assert "resume" + ".pdf" == "resume.pdf";
    assert ToLower(".pdf") == ".pdf";
    AllowedFileOfSuffixed("resume", ".docx");
    assert "resume" + ".docx" == "resume.docx";
    assert ToLower(".docx") == ".docx";
  }

  /**
   * A clean upload whose extension is exactly ".pdf" is stored as it is,
   * without conversion, under its scratch name, and the reply is 200.
   */
  lemma CleanPdfIsStoredUnconverted(req: Request, cfg: Config, mac: Mac, w: World)
    requires ValidWorld(w) && Admissible(req) && w.fault.None? && req.cvFile.value.size <= MaxFileSize
    requires w.stored && ScanClean(w.scan) && Ext(req.cvFile.value.filename) == ".pdf"
    ensures var r := Handle(req, cfg, mac, w);
      var key := ScratchName(req.firstName, req.lastName, w.timestamp, req.cvFile.value.filename);
      r.response.Ok? && r.calls == [Scan(r.response.filePath), Store(r.response.filePath)] &&
      r.response.filePath == RootedPath(w.tempDir) + [Separator] + key &&
      r.response.fileURL == ObjectURL(cfg.endpoint, cfg.bucket, key)
  {
    var key := ScratchName(req.firstName, req.lastName, w.timestamp, req.cvFile.value.filename);
    var path := ScratchPath(req, w);
    ScratchNameIsPlain(req.firstName, req.lastName, w.timestamp, req.cvFile.value.filename);
    assert Ext(key) == ".pdf";
    ScratchFileFacts(w.tempDir, key);
    HandleRunsStages(req, cfg, mac, w);
    StagesStoreDirectly(req.userUUID, cfg, mac, w, path);
  }

  /** After a clean scan of a file that needs no conversion, the stages go straight to the store. */
  lemma StagesSkipConversion(userUUID: string, cfg: Config, mac: Mac, w: World, path: string)
    requires ScanClean(w.scan) && !NeedsConversion(path)
    ensures Stages(userUUID, cfg, mac, w, path) == Deliver(userUUID, cfg, mac, w, path, [Scan(path)])
    ensures Stages(userUUID, cfg, mac, w, path).calls == [Scan(path), Store(path)]
  {
  }

  /** A clean file that needs no conversion and that the store accepts is stored at its own path. */
  lemma StagesStoreDirectly(userUUID: string, cfg: Config, mac: Mac, w: World, path: string)
    requires ScanClean(w.scan) && !NeedsConversion(path) && w.stored
    ensures var r := Stages(userUUID, cfg, mac, w, path);
      r.response.Ok? && r.calls == [Scan(path), Store(path)] &&
      r.response.filePath == path && r.response.fileURL == ObjectURL(cfg.endpoint, cfg.bucket, Base(path))
  {
    StagesSkipConversion(userUUID, cfg, mac, w, path);
  }

  /** Scenario A: a clean 500 KB "resume.pdf" is stored under its scratch name and answered 200. */
  lemma ScenarioCleanPdfIsStored(uuid: string, first: string, last: string, cfg: Config, mac: Mac, w: World)
    requires uuid != "" && first != "" && last != ""
    requires ValidWorld(w) && w.fault.None? && w.stored && ScanClean(w.scan)
    ensures var r := Handle(Request(uuid, first, last, Some(FilePart("resume.pdf", 512000))), cfg, mac, w).response;
      var key := ScratchName(first, last, w.timestamp, "resume.pdf");
      r.Ok? &&
      r.filePath == RootedPath(w.tempDir) + [Separator] + key &&
      r.fileURL == ObjectURL(cfg.endpoint, cfg.bucket, key)
  {
    ResumeNames();
    CleanPdfIsStoredUnconverted(Request(uuid, first, last, Some(FilePart("resume.pdf", 512000))), cfg, mac, w);
  }

  /** Scenario B: "resume.exe" is answered 400 "File type not allowed" and no scratch directory is made. */
  lemma ScenarioDisallowedType(uuid: string, first: string, last: string, size: nat, cfg: Config, mac: Mac, w: World)
    requires uuid != "" && first != "" && last != ""
    ensures var r := Handle(Request(uuid, first, last, Some(FilePart("resume.exe", size))), cfg, mac, w);
      r.response == BadRequest(MsgTypeNotAllowed) && !r.madeTempDir && r.calls == []
  {
    AllowedFileRejectsExe();
  }

  /** Scenario C: a 2 MB "resume.pdf" is answered 400 "File size exceeds limit", before any scan. */
  lemma ScenarioOversizedPdf(uuid: string, first: string, last: string, cfg: Config, mac: Mac, w: World)
    requires uuid != "" && first != "" && last != ""
    requires w.fault.None?
    ensures var r := Handle(Request(uuid, first, last, Some(FilePart("resume.pdf", 2097152))), cfg, mac, w);
      r.response == BadRequest(MsgTooLarge) && r.calls == []
  {
    ResumeNames();
  }

  /** The boundary of the limit: 1572864 bytes are scanned, 1572865 bytes are refused. */
  lemma ScenarioSizeBoundary(uuid: string, first: string, last: string, cfg: Config, mac: Mac, w: World)
    requires uuid != "" && first != "" && last != ""
    requires w.fault.None?
    ensures Handle(Request(uuid, first, last, Some(FilePart("resume.pdf", 1572864))), cfg, mac, w).calls != []
    ensures Handle(Request(uuid, first, last, Some(FilePart("resume.pdf", 1572865))), cfg, mac, w).response
         == BadRequest(MsgTooLarge)
  {
    ResumeNames();
    SizeLimitIsStrict(Request(uuid, first, last, Some(FilePart("resume.pdf", 1572864))), cfg, mac, w);
  }

  /**
   * Scenario D: a clean "resume.docx" whose conversion fails is answered
   * 500 "Failed to convert file to PDF", and the store is never called.
   */
  lemma ScenarioConversionFails(uuid: string, first: string, last: string, size: nat, cfg: Config, mac: Mac, w: World)
    requires uuid != "" && first != "" && last != ""
    requires ValidWorld(w) && w.fault.None? && size <= MaxFileSize && ScanClean(w.scan) && !w.converted
    ensures var r := Handle(Request(uuid, first, last, Some(FilePart("resume.docx", size))), cfg, mac, w);
      r.response == ServerError(MsgConvertFailed) &&
      forall i :: 0 <= i < |r.calls| ==> !r.calls[i].Store?
  {
    ResumeNames();
    var req := Request(uuid, first, last, Some(FilePart("resume.docx", size)));
    var name := ScratchName(first, last, w.timestamp, "resume.docx");
    HandleRunsStages(req, cfg, mac, w);
    ScratchPathInScratchDir(w.tempDir, first, last, w.timestamp, "resume.docx");
    ExtOfChild(RootedPath(w.tempDir), name);
    assert NeedsConversion(ScratchPath(req, w));
  }


  /* ---------------------------------------------------------------------- */
  /* The handler, step by step, over a scratch directory                     */
  /* ---------------------------------------------------------------------- */

  /**
   * The request's scratch directory: its path, whether it exists, and the
   * paths of the files in it. Every file lies beneath the directory, which
   * is what lets the deferred `os.RemoveAll` take them all away.
   */
  class ScratchDir {
    var path: string
    var present: bool
    var files: set<string>
    /** `os.MkdirTemp` has made the directory at some point of the request. */
    ghost var created: bool

    ghost predicate Valid()
      reads this
    {
      (present ==> created) && (!present ==> files == {}) &&
      forall f :: f in files ==> Beneath(f, path)
    }

    constructor ()
      ensures Valid() && !present && files == {} && !created
    {
      path, present, files, created := "", false, {}, false;
    }

    /** `os.MkdirTemp`: a new, empty directory at `dirPath`. */
    method MkdirTemp(dirPath: string)
      requires Valid() && !present
      modifies this
      ensures Valid() && present && path == dirPath && files == {} && created
    {
      path, present, files, created := dirPath, true, {}, true;
    }

    /** `os.Create` of a file in the directory, or a file written there by a tool. */
    method Create(filePath: string)
      requires Valid() && present && Beneath(filePath, path)
      modifies this
      ensures Valid() && present && path == old(path) && files == old(files) + {filePath}
      ensures created == old(created)
    {
      files := files + {filePath};
    }

    /** `os.Remove` of a file. */
    method Remove(filePath: string)
      requires Valid()
      modifies this
      ensures Valid() && present == old(present) && path == old(path) && files == old(files) - {filePath}
      ensures created == old(created)
    {
      files := files - {filePath};
    }

    /** `os.RemoveAll` of the directory: it and everything beneath it are gone. */
    method RemoveAll()
      requires Valid()
      modifies this
      ensures Valid() && !present && files == {} && path == old(path) && created == old(created)
    {
      present, files := false, {};
    }
  }

  /**
   * `convertToPDF`: the output path is fixed before the converter runs; on
   * success the converter has written it into the same directory and the
   * original is removed, on failure the directory is left as it was.
   */
  method ConvertToPDF(dir: ScratchDir, filePath: string, converted: bool) returns (r: Option<string>)
    requires dir.Valid() && dir.present && Beneath(filePath, dir.path)
    modifies dir
    ensures dir.Valid() && dir.present && dir.path == old(dir.path) && dir.created == old(dir.created)
    ensures converted ==>
      r == Some(ConvertedPath(filePath)) &&
      dir.files == (old(dir.files) + {ConvertedPath(filePath)}) - {filePath}
    ensures !converted ==> r == None && dir.files == old(dir.files)
  {
    var outputPath := ConvertedPath(filePath);
    if !converted {
      return None;
    }
    ConvertedPathStaysBeneath(filePath, dir.path);
    dir.Create(outputPath);
    dir.Remove(filePath);
    return Some(outputPath);
  }

  /**
   * The handler. Every return after the scratch directory is made goes
   * through its removal, as the deferred `os.RemoveAll` does.
   */
  method UploadFileHandler(req: Request, cfg: Config, mac: Mac, w: World, dir: ScratchDir)
    returns (response: Response, ghost calls: seq<Call>)
    requires ValidWorld(w)
    requires dir.Valid() && !dir.present && !dir.created
    modifies dir
    ensures Handle(req, cfg, mac, w) == Run(response, calls, dir.created)
    ensures dir.Valid() && !dir.present && dir.files == {}
    ensures dir.created ==> dir.path == RootedPath(w.tempDir)
  {
    if req.userUUID == "" || req.firstName == "" || req.lastName == "" {
      return BadRequest(MsgFieldsRequired), [];
    }
    if req.cvFile.None? {
      return BadRequest(MsgNoFilePart), [];
    }
    if req.cvFile.value.filename == "" {
      return BadRequest(MsgNoSelectedFile), [];
    }
    if !AllowedFile(req.cvFile.value.filename) {
      return BadRequest(MsgTypeNotAllowed), [];
    }
    if w.fault == Some(OpenUpload) {
      return InternalError(OpenUpload), [];
    }
    if w.fault == Some(MakeTempDir) {
      return InternalError(MakeTempDir), [];
    }
    dir.MkdirTemp(RootedPath(w.tempDir));
    response, calls := ProcessInScratchDir(req, cfg, mac, w, dir);
    dir.RemoveAll();
  }

  /**
   * The handler from the scratch directory's creation to its return, before
   * the deferred removal; says what the directory then holds.
   */
  method ProcessInScratchDir(req: Request, cfg: Config, mac: Mac, w: World, dir: ScratchDir)
    returns (response: Response, ghost calls: seq<Call>)
    requires ValidWorld(w) && Admissible(req)
    requires w.fault != Some(OpenUpload) && w.fault != Some(MakeTempDir)
    requires dir.Valid() && dir.present && dir.path == RootedPath(w.tempDir) && dir.files == {}
    modifies dir
    ensures dir.Valid() && dir.present && dir.created == old(dir.created) && dir.path == old(dir.path)
    ensures Handle(req, cfg, mac, w) == Run(response, calls, true)
    ensures dir.files <= {ScratchPath(req, w), ConvertedPath(ScratchPath(req, w))}
    ensures response.Ok? ==>
      dir.files == {response.filePath} &&
      response.filePath == RootedPath(w.tempDir) + [Separator] + Base(response.filePath)
    ensures response == ServerError(MsgConvertFailed) ==> dir.files == {ScratchPath(req, w)}
    ensures dir.files ==
      if w.fault == Some(CreateScratch) then {}
      else if w.fault.None? && req.cvFile.value.size <= MaxFileSize && ScanClean(w.scan) &&
              NeedsConversion(ScratchPath(req, w)) && w.converted
      then {ConvertedPath(ScratchPath(req, w))}
      else {ScratchPath(req, w)}
    ensures |dir.files| <= 1
  {
    var file := req.cvFile.value;
    var newFilename := ScratchName(req.firstName, req.lastName, w.timestamp, file.filename);
    var filePath := Join(dir.path, newFilename);
    ScratchPathInScratchDir(w.tempDir, req.firstName, req.lastName, w.timestamp, file.filename);
    assert filePath == ScratchPath(req, w);

    if w.fault == Some(CreateScratch) {
      return InternalError(CreateScratch), [];
    }
    dir.Create(filePath);
    response, calls := CopyAndProcess(req, cfg, mac, w, dir, filePath);
  }

  /**
   * The handler from the copy into the scratch file, which `os.Create` has
   * just made, to its return: the copy, the size limit and the stages.
   */
  method CopyAndProcess(req: Request, cfg: Config, mac: Mac, w: World, dir: ScratchDir, filePath: string)
    returns (response: Response, ghost calls: seq<Call>)
    requires ValidWorld(w) && Admissible(req)
    requires w.fault != Some(OpenUpload) && w.fault != Some(MakeTempDir) && w.fault != Some(CreateScratch)
    requires filePath == ScratchPath(req, w) && Beneath(filePath, RootedPath(w.tempDir))
    requires dir.Valid() && dir.present && dir.path == RootedPath(w.tempDir) && dir.files == {filePath}
    modifies dir
    ensures dir.Valid() && dir.present && dir.created == old(dir.created) && dir.path == old(dir.path)
    ensures Handle(req, cfg, mac, w) == Run(response, calls, true)
    ensures response.Ok? ==>
      dir.files == {response.filePath} &&
      response.filePath == RootedPath(w.tempDir) + [Separator] + Base(response.filePath)
    ensures dir.files <= {filePath, ConvertedPath(filePath)}
    ensures response == ServerError(MsgConvertFailed) ==> dir.files == {filePath}
    ensures dir.files ==
      if w.fault.None? && req.cvFile.value.size <= MaxFileSize && ScanClean(w.scan) &&
         NeedsConversion(filePath) && w.converted
      then {ConvertedPath(filePath)}
      else {filePath}
    ensures |dir.files| == 1
  {
    if w.fault.Some? {
      // `io.Copy` or `dst.Stat` failed: the other faults are ruled out by the caller.
      return InternalError(w.fault.value), [];
    }
    if req.cvFile.value.size > MaxFileSize {
      return BadRequest(MsgTooLarge), [];
    }
    HandleRunsStages(req, cfg, mac, w);
    response, calls := RunStages(req.userUUID, cfg, mac, w, dir, filePath);
    if response.Ok? {
      SuccessIsPdfInScratchDir(req, cfg, mac, w);
    }
  }

  /**
   * The handler from the virus scan on, for the scratch copy at `filePath`,
   * the only file in the directory: scan, convert unless the extension is
   * exactly ".pdf", store, sign. The directory ends up holding the file
   * that was stored, or the scratch copy when the conversion failed.
   */
  method RunStages(userUUID: string, cfg: Config, mac: Mac, w: World, dir: ScratchDir, filePath: string)
    returns (response: Response, ghost calls: seq<Call>)
    requires dir.Valid() && dir.present && dir.files == {filePath} && Beneath(filePath, dir.path)
    modifies dir
    ensures dir.Valid() && dir.present && dir.created == old(dir.created) && dir.path == old(dir.path)
    ensures Stages(userUUID, cfg, mac, w, filePath) == Run(response, calls, true)
    ensures dir.files <= {filePath, ConvertedPath(filePath)}
    ensures response.Ok? ==> dir.files == {response.filePath}
    ensures response == ServerError(MsgConvertFailed) ==> dir.files == {filePath}
    ensures dir.files ==
      if ScanClean(w.scan) && NeedsConversion(filePath) && w.converted then {ConvertedPath(filePath)} else {filePath}
    ensures |dir.files| <= 1
  {
    var path := filePath;
    calls := [Scan(path)];
    if !ScanClean(w.scan) {
      return BadRequest(MsgInfected), calls;
    }

    if Ext(path) != ".pdf" {
      calls := calls + [Convert(path)];
      var converted := ConvertToPDF(dir, path, w.converted);
      if converted.None? {
        assert calls == [Scan(filePath), Convert(filePath)];
        return ServerError(MsgConvertFailed), calls;
      }
      path := converted.value;
      assert calls == [Scan(filePath), Convert(filePath)] && path == ConvertedPath(filePath);
      ConvertedPathDiffers(filePath);
      ReplaceOnlyFile(filePath, path);
    }
    assert Stages(userUUID, cfg, mac, w, filePath) == Deliver(userUUID, cfg, mac, w, path, calls);
    response, calls := StoreAndSign(userUUID, cfg, mac, w, path, calls);
  }

  /** Adding `added` to a directory that holds only `gone`, then removing `gone`, leaves `added` alone. */
  lemma ReplaceOnlyFile<T>(gone: T, added: T)
    requires gone != added
    ensures ({gone} + {added}) - {gone} == {added}
  {
  }

  /** The handler's last stage: upload the final file at `path`, then sign the reply. */
  method StoreAndSign(userUUID: string, cfg: Config, mac: Mac, w: World, path: string, ghost before: seq<Call>)
    returns (response: Response, ghost calls: seq<Call>)
    ensures Deliver(userUUID, cfg, mac, w, path, before) == Run(response, calls, true)
    ensures response.Ok? ==> response.filePath == path
    ensures response.Ok? || response == ServerError(MsgUploadFailed)
  {
    calls := before + [Store(path)];
    var fileURL := UploadToS3(cfg.endpoint, cfg.bucket, path, w.stored);
    if fileURL.None? {
      return ServerError(MsgUploadFailed), calls;
    }
    var token := GenerateToken(mac, cfg.secret, userUUID, path, fileURL.value);
    return Ok(fileURL.value, path, token), calls;
  }

}
