# CV upload handler, modelled in Dafny

The service accepts one CV per `POST /upload` request. It takes a user UUID,
a first name, a last name and a file part named `cvFile`, and answers with
either a JSON error or the file's public URL, its path and a signed token.
`uploadFileHandler` is a fail-fast pipeline. Each stage either answers the
request or passes a file path on to the next:

1. the form fields must all be present;
2. the file part must exist and have a name;
3. the extension, lower-cased, must be one of seven document types;
4. the upload is copied to a fresh scratch directory under a name made of
   the user's names, the time and the original extension;
5. the copy must not exceed 1.5 MiB;
6. `clamdscan` must print "OK";
7. anything whose extension is not exactly ".pdf" is converted by
   LibreOffice;
8. the final file is put in the object store under its base name;
9. an HMAC-SHA256 token over `userUUID:filePath:fileURL` is returned as
   lower-case hex.

The scratch directory is removed on every path out.

Modules:

- `GoStrings`, `GoFilepath` and `HexEncoding` model the parts of Go's
  `strings`, `path/filepath` and `encoding/hex` packages that the handler
  relies on:
  - `ToLower`, `ReplaceAll` of one rune, `TrimSuffix` and `Contains`;
  - `Ext`, `Base`, `Clean` and `Join` on Unix paths;
  - `EncodeToString` and `DecodeString`.
- `UploadRules` holds the handler's own rules as functions:
  - the extension allow-list and the size limit;
  - the scratch file name;
  - the converted path;
  - the object URL;
  - the token;
  - the scan verdict.
- `Pipeline` holds the handler in two forms, plus its scratch directory:
  - `Handle` is the specification: a function from the request, the
    configuration, the MAC and the behaviour of the outside world to the
    reply, the external calls in order, and whether the scratch
    directory was made.
  - `UploadFileHandler` is the handler itself, step by step. It is proved
    equal to `Handle`, and proved to leave its `ScratchDir` empty and
    removed.
  - The class `ScratchDir` is the scratch directory: its path, whether it
    exists, and the full paths of the files in it. Its invariant is that
    every file lies beneath the directory.

## Model

| member | source | states |
|---|---|---|
| GoStrings.ToLower | main.go:72 | the result has the input's length, and each rune is lowered by Go's mapping (ASCII letters, plus the Kelvin sign and the dotted capital I, which lower to ASCII) |
| GoStrings.ToLowerIdempotent | main.go:72 | lowering twice is lowering once |
| GoStrings.LowerRuneKeepsPunctuation | main.go:72 | lowering produces '.' or '/' exactly from '.' or '/', so it never moves where an extension starts |
| GoStrings.ReplaceRune | main.go:163-164 | `strings.ReplaceAll` of one rune replaces exactly the positions holding that rune and keeps the length |
| GoStrings.ReplaceRuneRemoves | main.go:163-164 | after the replacement the replaced rune does not occur, and no new rune appears except the replacement |
| GoStrings.ReplaceAbsentRune | main.go:163-164 | replacing a rune that does not occur changes nothing |
| GoStrings.TrimSuffix | main.go:96 | with the suffix present, the result followed by the suffix is the input; otherwise the input is returned unchanged |
| GoStrings.Contains | main.go:92 | true exactly when the needle occurs at some position of the haystack |
| GoFilepath.Ext | main.go:72 | `filepath.Ext` is no longer than the path, and it is empty or starts with '.' |
| GoFilepath.ExtSpec | main.go:72 | `filepath.Ext` is the suffix from the last '.' of the last path element, or "" when that element has no '.' |
| GoFilepath.ExtShape | main.go:72 | an extension is "" or starts with '.' and has no other '.' or '/', and it is a suffix of the path |
| GoFilepath.ExtOfSuffixed | main.go:165 | a path ending in an extension has exactly that extension, whatever precedes it |
| GoFilepath.ExtOfDotless | main.go:72 | a path with no '.' has no extension |
| GoFilepath.ExtOfChild | main.go:166 | a path inside a directory has the extension of its last element |
| GoFilepath.ExtOfRootedPath | main.go:166 | a rooted path has the extension of its last element |
| GoFilepath.LastElement | main.go:113 | the last path element is a separator-free suffix of the path, and it is the whole path or follows a '/' |
| GoFilepath.Base | main.go:113 | `filepath.Base` is never empty; it is "." for the empty path, "/" exactly for a non-empty path of separators only, and otherwise free of separators |
| GoFilepath.BaseOfPath | main.go:113 | the base of `prefix name trailing` is `name`, for a separator-free name after the start or a '/', whatever run of '/' trails it |
| GoFilepath.BaseOfChild | main.go:113 | the base of `dir/name` is `name` for a non-empty, separator-free name |
| GoFilepath.CleanSegmentsPlain | main.go:166 | cleaning a list of ordinary path elements keeps them all, in order |
| GoFilepath.Clean | main.go:166 | `filepath.Clean` never returns the empty path, and a rooted path stays rooted |
| GoFilepath.Join | main.go:166 | `filepath.Join` is empty exactly when both parts are, and a rooted directory gives a rooted path |
| GoFilepath.JoinPlainChild | main.go:166 | `filepath.Join` of a clean rooted directory and an ordinary name is `dir/name`, which lies beneath `dir` |
| GoFilepath.JoinParentChild | main.go:166 | `filepath.Join(dir, "../x")` is a sibling `x` of `dir`'s last element |
| GoFilepath.NotBeneathSameDepth | main.go:166 | a rooted path with as many elements as a directory does not lie beneath it |
| HexEncoding.EncodeToString | main.go:80 | the encoding has two lower-case hex digits per byte |
| HexEncoding.DecodeString | main.go:80 | the reference decoder through which `DecodeEncode` fixes the value of line 80's encoding: like `hex.DecodeString`, it succeeds exactly on an even-length string of hex digits, with one byte per two digits |
| HexEncoding.DecodeEncode | main.go:80 | decoding the hex encoding of any byte string gives that byte string back |
| HexEncoding.EncodeDecode | main.go:80 | a lower-case hex string that decodes is the encoding of what it decodes to |
| UploadRules.AllowedFileSpec | main.go:31-74 | a file name is accepted exactly when the suffix from its extension's dot, lower-cased, is one of ".pdf", ".doc", ".docx", ".odt", ".rtf", ".wps", ".wpd" |
| UploadRules.AllowedFile | main.go:71-74 | an accepted name has a proper extension: a '.' followed by characters that are neither '.' nor '/' |
| UploadRules.AllowedFileIgnoresCase | main.go:71-74 | two names that agree up to case are accepted or rejected together |
| UploadRules.AllowedFileOfSuffixed | main.go:71-74 | a name ending in an extension is accepted exactly when that extension, lower-cased, is on the allow-list |
| UploadRules.AllowedFileAcceptsUpperCase | main.go:71-74 | "REPORT.PDF" is accepted |
| UploadRules.AllowedFileRejectsNoExtension | main.go:71-74 | "README" is rejected |
| UploadRules.AllowedFileRejectsExe | main.go:71-74 | "resume.exe" and "resume.pdf.exe" are rejected, because only the last extension counts |
| UploadRules.AllowedFileIgnoresDirectoryDots | main.go:71-74 | "cv.pdf/notes" is rejected, because a dot in a directory element is not an extension |
| UploadRules.ScratchNameAsWritten | main.go:162-165 | the scratch file name as the handler builds it keeps the upload's extension |
| UploadRules.SanitizeName | main.go:163-164 | each space or '/' in a name becomes '_' and every other rune is kept, so the result has no space and no '/' |
| UploadRules.ScratchName | main.go:162-165 | the corrected scratch name keeps the upload's extension |
| UploadRules.ScratchNameKeepsExtension | main.go:165 | for an accepted upload, both scratch names have exactly the upload's extension |
| UploadRules.ScratchNameAgreesWithSource | main.go:163-165 | when neither name contains '/', the corrected scratch name is the one the handler builds |
| UploadRules.ScratchNameIsPlain | main.go:162-165 | the corrected scratch name is an ordinary path element: not empty, not "." or "..", with no '/' |
| UploadRules.ScratchPathInScratchDir | main.go:156-166 | the corrected scratch path is `tempDir/name` and lies beneath the scratch directory |
| UploadRules.ScratchPathEscapesScratchDir | main.go:163-166 | with a first name "../x", the scratch path the handler builds does not lie beneath the scratch directory |
| UploadRules.ScratchPathEscapeExample | main.go:163-166 | first name "../a" turns "/tmp/upload1" plus the built name into a path outside "/tmp/upload1" |
| UploadRules.NeedsConversion | main.go:191 | a file is converted exactly when its path does not end in ".pdf", letter case included |
| UploadRules.PdfSuffixIsPdfExtension | main.go:191 | the extension is exactly ".pdf" when and only when the path ends in ".pdf" |
| UploadRules.ConvertedPath | main.go:96 | the converted path is the input without its extension, followed by ".pdf", so its extension is ".pdf" |
| UploadRules.ConvertedPathDiffers | main.go:95-196 | a file that needs conversion gets a path different from its own |
| UploadRules.ConvertedPathOfChild | main.go:96-97 | converting `dir/name` gives `dir/` followed by the converted name; that name is an ordinary element and is the new path's base |
| UploadRules.ConvertedPathStaysBeneath | main.go:96-97 | the converted file lies beneath every directory the original lies beneath |
| UploadRules.UpperCasePdfIsConverted | main.go:71-196 | "CV.PDF" is accepted, and it is still converted to "CV.pdf", because the conversion test is case-sensitive |
| UploadRules.ObjectURL | main.go:124 | the URL is the endpoint, "/", the bucket, "/" and the key, in that order |
| UploadRules.ObjectURLInjective | main.go:113-124 | under one endpoint and bucket, different keys give different URLs |
| UploadRules.UploadToS3 | main.go:106-126 | the upload yields a URL exactly when the store succeeds, and that URL names the file's base name |
| UploadRules.GenerateToken | main.go:76-80 | the token is 64 lower-case hex digits, and it decodes to the MAC of `userUUID:filePath:fileURL` under the secret |
| UploadRules.TokenMessageSeparatesEachField | main.go:77 | with the other two fields fixed, the signed message determines each field |
| UploadRules.TokenMessage | main.go:77 | the signed message is the UUID, ':', the path, ':' and the URL, in that order and nothing else |
| UploadRules.TokenMessageAmbiguous | main.go:77 | when fields may contain ':', two different triples sign the same message |
| UploadRules.ScanClean | main.go:83-93 | the scan is clean exactly when the scanner ran without error and its output contains "OK"; a scanner error is never clean |
| UploadRules.ContainsOK | main.go:92 | `strings.Contains(out, "OK")` is the same as an "O" directly followed by a "K" somewhere in the output |
| Pipeline.Handle | main.go:128-208 | the scratch directory is made only for an admissible request; external calls happen exactly when the request is admissible, no I/O call fails and the file is within the limit; a 200 reply follows some external call |
| Pipeline.Stages | main.go:187-208 | the stages begin with the scan of the given path, never answer "File size exceeds limit", and answer 200 only after a clean scan and a successful store |
| Pipeline.Deliver | main.go:198-208 | the store of the final file is the last external call; the reply is 200 exactly when the store succeeds, naming the stored path and the URL of its base name, and otherwise 500 "Failed to upload file to S3" |
| Pipeline.ScratchPathAsWritten | main.go:162-166 | the scratch path as line 166 builds it, from the name with only spaces replaced; it is the corrected scratch path whenever neither name contains '/' |
| Pipeline.HandleAsWritten | main.go:128-208 | the handler with the scratch name as written makes external calls under the same conditions as `Handle`, and answers 200 only after a clean scan and a successful store |
| Pipeline.ScratchDirOnlyAfterValidation | main.go:133-160 | the scratch directory is made exactly when the fields, the file part, its name and its extension pass and opening the upload and making the directory succeed; a rejected request is answered 400 with no external call |
| Pipeline.SizeLimitIsStrict | main.go:183-185 | the reply is "File size exceeds limit" exactly when the copy holds more than 1572864 bytes; otherwise the scan is the first external call |
| Pipeline.UncleanScanStops | main.go:187-189 | an unclean scan, a failed scanner run included, is answered 400 "File might be infected", and the scan is the only external call |
| Pipeline.StoreOnlyAfterCleanScanOfPdf | main.go:187-201 | the store is called only after a clean scan, as the last external call, on a path whose extension is ".pdf"; when conversion was needed, it comes right after a successful conversion |
| Pipeline.Conversions | main.go:191-196 | the count of converter calls is zero exactly when no call is a conversion |
| Pipeline.ConvertOnceUnlessPdf | main.go:191-196 | after a clean scan, the converter runs once, right after the scan, when the scratch path's extension is not exactly ".pdf", and otherwise never |
| Pipeline.StagesSucceeded | main.go:187-208 | a 200 reply means a clean scan, a successful store and, when needed, a successful conversion; the reply's path is the final file, its URL is that file's base name in the bucket, and its token signs them |
| Pipeline.TokenOnlyAfterStore | main.go:198-208 | a 200 reply follows a successful store of the reply's own path; the token is 64 hex digits and decodes to the MAC of the UUID, the path and the URL |
| Pipeline.SuccessIsPdfInScratchDir | main.go:166-208 | a 200 reply names a ".pdf" file directly inside the scratch directory, and the object key is that file's name |
| Pipeline.HandleAgreesWithSource | main.go:162-208 | when neither name contains '/', the handler with the corrected scratch name is the handler as written |
| Pipeline.AsWrittenSuccessEscapesScratchDir | main.go:160-208 | as written, a 200 reply to a ".pdf" upload from first name "../x" names a file outside the scratch directory |
| Pipeline.AllowedNameHasExtension | main.go:146-165 | an accepted upload's scratch name has an extension |
| Pipeline.ScratchFileFacts | main.go:95-166 | the scratch file and its converted form are both direct children of the scratch directory, their base names are those children, and conversion renames the file |
| Pipeline.CleanPdfIsStoredUnconverted | main.go:183-208 | a clean ".pdf" within the limit is stored as is: the calls are scan then store, and the URL names the scratch file |
| Pipeline.StagesStoreDirectly | main.go:187-208 | a clean file whose extension is ".pdf", when the store succeeds, is scanned and then stored as is, with a 200 reply naming it and the URL of its base name |
| Pipeline.ScenarioCleanPdfIsStored | main.go:128-208 | a clean 512000-byte "resume.pdf" is answered 200 with the scratch path and its object URL |
| Pipeline.ScenarioDisallowedType | main.go:146-148 | "resume.exe" is answered 400 "File type not allowed", with no scratch directory and no external call |
| Pipeline.ScenarioOversizedPdf | main.go:183-185 | a 2097152-byte "resume.pdf" is answered 400 "File size exceeds limit" before any external call |
| Pipeline.ScenarioSizeBoundary | main.go:29-185 | 1572864 bytes pass the limit and 1572865 bytes do not |
| Pipeline.ScenarioConversionFails | main.go:191-195 | a clean "resume.docx" that does not convert is answered 500 "Failed to convert file to PDF", and the store is never called |
| Pipeline.ScratchDir.constructor | main.go:156 | the directory starts absent and empty |
| Pipeline.ScratchDir.MkdirTemp | main.go:156-159 | the directory now exists, at the given path, and is empty |
| Pipeline.ScratchDir.Create | main.go:168-171 | the file, which must lie beneath the directory, is added to it, and nothing else changes |
| Pipeline.ScratchDir.Remove | main.go:102 | the file is gone from the directory, and nothing else changes |
| Pipeline.ScratchDir.RemoveAll | main.go:160 | the directory no longer exists and holds no file |
| Pipeline.ConvertToPDF | main.go:95-104 | on success, the result is the converted path, and the directory gains that file and loses the original; on failure, there is no result and the directory is unchanged |
| Pipeline.UploadFileHandler | main.go:128-209 | the reply and the external calls are those of `Handle`, the scratch directory is made exactly when `Handle` says, and it ends removed and empty |
| Pipeline.ProcessInScratchDir | main.go:162-208 | inside the scratch directory, the handler does what `Handle` says, and on every exit the directory holds exactly: nothing when `os.Create` fails; the converted file after a clean scan and a successful conversion; otherwise the scratch copy. So it never holds more than one file, and after a 200 reply it holds exactly the replied file |
| Pipeline.CopyAndProcess | main.go:174-208 | from the copy on, the handler does what `Handle` says, and the directory ends holding exactly one file: the converted file after a clean scan and a successful conversion, otherwise the scratch copy |
| Pipeline.RunStages | main.go:187-208 | the scan, conversion and store do what `Stages` says, and leave in the directory exactly one file: the converted file after a clean scan and a successful conversion, otherwise the scratch copy |
| Pipeline.StoreAndSign | main.go:198-208 | the store and the token do what `Deliver` says; a reply is either 200 naming the given path or 500 "Failed to upload file to S3" |

## Left out

- Echo's routing, middleware and form parsing (`main`, lines 211-219) are left out. A request is its decoded form values and file part, and a missing `cvFile` part is `None`.
- `init` is left out: loading `.env`, reading the environment and creating the AWS session. The endpoint, bucket and token secret are a `Config` parameter.
- HMAC-SHA256 is not computed. The MAC is a parameter from the secret and the message to a 32-byte digest, and the model proves only what the handler adds: the message format and the hex encoding.
- The runs of `clamdscan` and `libreoffice` are inputs. The scan is its error flag and its standard output. The conversion is a success flag, and on success the converter is taken to write the file at the path line 96 computes.
- `os.Open`, `PutObject` and `file.Close` in `uploadToS3` are one input: whether the store succeeds.
- `time.Now().Format` is an input: the formatted timestamp, assumed to be digits and dashes, which is what that layout yields.
- `os.MkdirTemp` picks the directory name, which is an input: a rooted path of ordinary elements.
- The failing I/O calls whose errors the handler returns unchanged are `file.Open`, `MkdirTemp`, `os.Create`, `io.Copy` and `Stat`. They are one input naming the call that fails. The error value is not modelled, only the step it came from.
- The copied bytes are not modelled, only their number. `Stat`'s size is taken to equal the upload's size.
- The `defer`red `Close` calls are not modelled. Neither is the ignored error of `os.Remove` on line 102: the original is assumed to be removed.
- `RemoveAll` on line 160 is modelled as emptying the directory's own files. This covers every file the corrected pipeline creates. The as-written name can place a file outside the directory, and then `RemoveAll` does not remove it. That case is shown by the lemmas in the Findings table below.
- The multipart header's filename is taken as given. Go's `mime/multipart` (`Part.FileName`, which applies `filepath.Base`) reduces it to a base name when Echo's `FormFile` reaches it through `net/http`; that step is not modelled.
- GoStrings.ToLower: `strings.ToLower` is modelled for ASCII and the two non-ASCII runes that lower to ASCII, the Kelvin sign and the dotted capital I. Other runes are left unchanged. This is enough for the allow-list, whose entries are all ASCII.
- `filepath.Clean` and `filepath.Join` are modelled for Unix paths only: `/` is the separator and there are no volume names.
- Concurrency between requests is left out, since each request has its own scratch directory.
- GoFilepath.Ext: its own contract gives only the shape of the result; `GoFilepath.ExtSpec` states what it is.
- GoFilepath.Clean: its own contract gives only non-emptiness and rootedness; what it does to ordinary rooted paths and to ".." is stated by `GoFilepath.CleanSegmentsPlain`, `GoFilepath.JoinPlainChild` and `GoFilepath.JoinParentChild`.
- GoFilepath.Join: the same; its effect on the scratch path is stated by `GoFilepath.JoinPlainChild` and `GoFilepath.JoinParentChild`.
- A name holding '/' has three possible outcomes in the handler as written: `os.Create` can fail because the directory does not exist (e.g. "a/b"); the file can leave the scratch directory ("../x"); or `filepath.Join` can clean the path back into it ("./a"). The model leaves the first to the input naming the failing I/O call; the second is the Findings row below; the third, like every name, is modelled with the corrected name.
- UploadFileHandler: the external calls it reports are ghost. The pipeline is proved against `Handle` with the corrected scratch name, not the as-written one (see Findings).

## Findings

| source | as written | input that shows it | evidently intended | confidence | as-written member | corrected member |
|---|---|---|---|---|---|---|
| main.go:163-166 | Only spaces are replaced in the first and last names. The name then goes through `filepath.Join`, which cleans "..". | firstName "../a", lastName "b", upload "cv.pdf", scratch directory "/tmp/upload1": the copy is written to "/tmp/a-b-<time>.pdf", outside the scratch directory. The deferred `RemoveAll` leaves it behind, and a crafted name can overwrite files elsewhere. | The scratch file always lies directly inside the scratch directory. | not executed | UploadRules.ScratchPathEscapesScratchDir | UploadRules.ScratchPathInScratchDir |

The corrected name (`UploadRules.ScratchName`) also maps '/' to '_'. When no name contains '/', it equals the as-written name (`UploadRules.ScratchNameAgreesWithSource`). `Pipeline.HandleAsWritten` is the handler with the as-written name; `Pipeline.AsWrittenSuccessEscapesScratchDir` shows the escape in a 200 reply. `Pipeline.ScratchDir.Create` requires its file to lie beneath the directory, so the step-by-step handler is written with the corrected name.
