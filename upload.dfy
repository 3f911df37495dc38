/** server/utils/files/multer.js, `handleFileUpload`: an uploaded file is
    checked for content, classified by its extension, validated, stored in
    the bucket under a unique key, and described on the request for the
    next handler. */
module Upload {
  import opened Wrappers
  import opened Strings

  newtype byte = x: int | 0 <= x < 256

  /** `request.file`: the original name, the bytes and the MIME type. */
  datatype IncomingFile = IncomingFile(originalname: string, buffer: seq<byte>, mimetype: string)

  /** The format checks, as foreign predicates on the bytes (loading a PDF,
      reading image metadata, extracting docx text), and `toString('utf-8')`. */
  datatype Validators = Validators(pdf: seq<byte> -> bool, image: seq<byte> -> bool,
                                   docx: seq<byte> -> bool, decode: seq<byte> -> string)

  datatype FileKind = PdfFile | ImageFile | TextFile | DocxFile

  /** What `validateFile` resolves to. */
  datatype Validation = Valid | Invalid(error: string)

  const CorruptedFile := "Corrupted File."
  const FileIsValid := "File is valid."
  const NoContent := "Provided file did not have any content."
  const FileCorrupted := "The provided file was corrupted."
  const NoFileUploaded := "No file uploaded."
  const UploadError := "Error processing file upload."

  /** `originalName.split('.').pop().toLowerCase()`: the last `.`-separated
      piece, lower-cased; a name without `.` is its own extension. */
  function FileExtension(originalName: string): (ext: string)
    ensures '.' !in ext
  {
    var pieces := Split(originalName, '.');
    var last := pieces[|pieces| - 1];
    assert forall i :: 0 <= i < |last| ==> ToLower(last)[i] != '.';
    ToLower(last)
  }

  /** The `switch` of `validateFile`. */
  function Kind(ext: string): (k: Option<FileKind>)
    ensures k.Some? <==> ext in {"pdf", "jpg", "jpeg", "png", "txt", "md", "docx"}
    ensures k == Some(TextFile) <==> ext == "txt" || ext == "md"
  {
    match ext
    case "pdf" => Some(PdfFile)
    case "jpg" => Some(ImageFile)
    case "jpeg" => Some(ImageFile)
    case "png" => Some(ImageFile)
    case "txt" => Some(TextFile)
    case "md" => Some(TextFile)
    case "docx" => Some(DocxFile)
    case _ => None
  }

  /** Node's UTF-8 decoding: the empty buffer decodes to `""`, and any other
      buffer to a non-empty string, since a byte that starts no valid
      sequence still becomes a replacement character. */
  ghost predicate DecodesLikeUtf8(decode: seq<byte> -> string)
  {
    decode([]) == [] && forall b: seq<byte> :: |b| > 0 ==> |decode(b)| > 0
  }

  /** `isTextFileValid`: the decoded text is not empty, which under UTF-8
      decoding means exactly that the buffer is not empty. */
  function IsTextFileValid(v: Validators, buffer: seq<byte>): (ok: bool)
    ensures DecodesLikeUtf8(v.decode) ==> (ok <==> |buffer| > 0)
  {
    |v.decode(buffer)| > 0
  }

  /** `validateFile(buffer, originalName)`. */
  function ValidateFile(v: Validators, buffer: seq<byte>, originalName: string): (r: Validation)
    ensures Kind(FileExtension(originalName)).None? ==>
              r == Invalid("Unsupported file type: ." + FileExtension(originalName))
    ensures r.Invalid? && Kind(FileExtension(originalName)).Some? ==> r.error == CorruptedFile
  {
    var ext := FileExtension(originalName);
    match Kind(ext)
    case None => Invalid("Unsupported file type: ." + ext)
    case Some(kind) =>
      var isValid := match kind
                     case PdfFile => v.pdf(buffer)
                     case ImageFile => v.image(buffer)
                     case TextFile => IsTextFileValid(v, buffer)
                     case DocxFile => v.docx(buffer);
      if isValid then Valid else Invalid(CorruptedFile)
  }

  /** `processFile`: every validation failure, an unsupported type
      included, collapses to "Corrupted File.". */
  function ProcessFile(v: Validators, buffer: seq<byte>, originalName: string): (r: Result<string>)
    ensures r == Ok(FileIsValid) || r == Err(CorruptedFile)
    ensures r.Ok? <==> ValidateFile(v, buffer, originalName).Valid?
  {
    if ValidateFile(v, buffer, originalName).Invalid? then Err(CorruptedFile) else Ok(FileIsValid)
  }

  /** The text check never fails on an upload that reaches it: the handler
      has already refused the empty buffer, and a non-empty one decodes to
      a non-empty string, so every `.txt` and `.md` upload is valid. */
  lemma TextUploadIsValid(v: Validators, buffer: seq<byte>, name: string)
    requires DecodesLikeUtf8(v.decode)
    requires FileExtension(name) == "txt" || FileExtension(name) == "md"
    requires |buffer| > 0
    ensures ProcessFile(v, buffer, name) == Ok(FileIsValid)
  {
    assert IsTextFileValid(v, buffer);
  }

  /** A supported file passes exactly when its own check passes; a text or
      markdown file passes exactly when it decodes to a non-empty string. */
  lemma ValidationByKind(v: Validators, buffer: seq<byte>, name: string)
    ensures var ext := FileExtension(name);
            && (ext == "pdf" ==> (ProcessFile(v, buffer, name).Ok? <==> v.pdf(buffer)))
            && (ext in {"jpg", "jpeg", "png"} ==> (ProcessFile(v, buffer, name).Ok? <==> v.image(buffer)))
            && (ext in {"txt", "md"} ==> (ProcessFile(v, buffer, name).Ok? <==> |v.decode(buffer)| > 0))
            && (ext == "docx" ==> (ProcessFile(v, buffer, name).Ok? <==> v.docx(buffer)))
            && (ext !in {"pdf", "jpg", "jpeg", "png", "txt", "md", "docx"} ==>
                  ProcessFile(v, buffer, name) == Err(CorruptedFile))
  {
  }

  /** The extension is what follows the last `.`, whatever comes before. */
  lemma ExtensionIsLastPiece(stem: string, e: string)
    requires '.' !in e
    ensures FileExtension(stem + "." + e) == ToLower(e)
  {
    SplitConcat(stem, e, '.');
    SplitWithoutSeparator(e, '.');
  }

  /** A separator splits the pieces on either side of it apart. */
  lemma {:induction false} SplitConcat(a: string, b: string, sep: char)
    ensures Split(a + [sep] + b, sep) == Split(a, sep) + Split(b, sep)
    decreases |a|
  {
    var s := a + [sep] + b;
    if a == [] {
      assert s[1..] == b;
    } else {
      assert s[1..] == a[1..] + [sep] + b;
      SplitConcat(a[1..], b, sep);
    }
  }

  /** A name without `.` is taken whole as its extension, so a file named
      `pdf` is validated as a PDF. */
  lemma NameWithoutDot(name: string)
    requires '.' !in name
    ensures FileExtension(name) == ToLower(name)
  {
    SplitWithoutSeparator(name, '.');
  }

  /** What `request.uploadedFile` is set to. */
  datatype UploadedFileInfo = UploadedFileInfo(url: string, filename: string, uuid: string, originalname: string)

  /** How the handler ends: a JSON error with a status, or `next()`. */
  datatype Response = Respond(status: nat, error: string) | Next

  /** What the handler depends on besides the file: multer's own error, the
      `v4()` value, and whether the S3 upload succeeds. */
  datatype UploadIo = UploadIo(multerError: Option<string>, uuid: string, uploadOk: bool)

  /** `${uuid}-${originalname}`: the id, a `-`, then the name. */
  function UniqueFilename(uuid: string, originalname: string): (key: string)
    ensures |key| == |uuid| + 1 + |originalname|
    ensures key[..|uuid|] == uuid && key[|uuid|] == '-' && key[|uuid| + 1..] == originalname
  {
    uuid + "-" + originalname
  }

  /** With ids of one width (every `v4()` id has 36 characters) the key
      determines both the id and the name, so two uploads share a key only
      when they share both. */
  lemma UniqueFilenameIsInjective(u1: string, n1: string, u2: string, n2: string)
    requires |u1| == |u2|
    requires UniqueFilename(u1, n1) == UniqueFilename(u2, n2)
    ensures u1 == u2 && n1 == n2
  {
    var k := UniqueFilename(u1, n1);
    assert u1 == k[..|u1|] && n1 == k[|u1| + 1..];
  }

  /** What `handleFileUpload` responds, what it sets `request.uploadedFile`
      to (`None`: left as it was) and what the bucket holds afterwards. */
  function HandleFileUploadSpec(objectUrl: string -> string, objects: map<string, seq<byte>>,
                                file: Option<IncomingFile>, v: Validators, io: UploadIo)
    : (Response, Option<UploadedFileInfo>, map<string, seq<byte>>)
  {
    if io.multerError.Some? then (Respond(500, "Invalid file upload. " + io.multerError.value), None, objects)
    else if file.None? then (Respond(400, NoFileUploaded), None, objects)
    else
      var f := file.value;
      if |f.buffer| == 0 then (Respond(500, NoContent), None, objects)
      else if ProcessFile(v, f.buffer, f.originalname).Err? then (Respond(500, FileCorrupted), None, objects)
      else if !io.uploadOk then (Respond(500, UploadError), None, objects)
      else
        var key := UniqueFilename(io.uuid, f.originalname);
        (Next, Some(UploadedFileInfo(objectUrl(key), key, io.uuid, f.originalname)), objects[key := f.buffer])
  }

  /** The incoming request; only the field the handler sets is modelled. */
  class UploadRequest {
    var uploadedFile: Option<UploadedFileInfo>

    constructor ()
      ensures uploadedFile.None?
    {
      uploadedFile := None;
    }
  }

  /** The S3 bucket the upload goes to. */
  class Bucket {
    const objectUrl: string -> string
    var objects: map<string, seq<byte>>

    constructor (objectUrl: string -> string, objects: map<string, seq<byte>>)
      ensures this.objectUrl == objectUrl && this.objects == objects
    {
      this.objectUrl := objectUrl;
      this.objects := objects;
    }

    /** `uploadFileToS3` with explicit parameters. */
    method UploadFileToS3(key: string, body: seq<byte>) returns (url: string)
      modifies this`objects
      ensures objects == old(objects)[key := body] && url == objectUrl(key)
    {
      objects := objects[key := body];
      url := objectUrl(key);
    }
  }

  /** `handleFileUpload(request, response, next)`, after multer has read
      the file into memory. */
  method HandleFileUpload(request: UploadRequest, bucket: Bucket, file: Option<IncomingFile>,
                          v: Validators, io: UploadIo) returns (response: Response)
    modifies request`uploadedFile, bucket`objects
    ensures var (r, info, objects) := HandleFileUploadSpec(bucket.objectUrl, old(bucket.objects), file, v, io);
            && response == r && bucket.objects == objects
            && request.uploadedFile == (if info.Some? then info else old(request.uploadedFile))
  {
    if io.multerError.Some? {
      return Respond(500, "Invalid file upload. " + io.multerError.value);
    }
    if file.None? {
      return Respond(400, NoFileUploaded);
    }
    var originalname := file.value.originalname;
    var buffer := file.value.buffer;
    if |buffer| == 0 {
      return Respond(500, NoContent);
    }
    var result := ProcessFile(v, buffer, originalname);
    if result.Err? {
      return Respond(500, FileCorrupted);
    }
    if !io.uploadOk {
      return Respond(500, UploadError);
    }
    var uniqueFilename := UniqueFilename(io.uuid, originalname);
    var fileUploadUrl := bucket.UploadFileToS3(uniqueFilename, buffer);
    request.uploadedFile := Some(UploadedFileInfo(fileUploadUrl, uniqueFilename, io.uuid, originalname));
    response := Next;
  }

  /** An empty buffer is refused before validation and before any upload:
      the response does not depend on the validators and the bucket is
      unchanged. */
  lemma EmptyBufferRefused(objectUrl: string -> string, objects: map<string, seq<byte>>,
                           f: IncomingFile, v1: Validators, v2: Validators, io: UploadIo)
    requires io.multerError.None? && f.buffer == []
    ensures HandleFileUploadSpec(objectUrl, objects, Some(f), v1, io) ==
            HandleFileUploadSpec(objectUrl, objects, Some(f), v2, io) ==
            (Respond(500, NoContent), None, objects)
  {
  }

  /** Nothing is uploaded unless the handler goes on to `next()`, and then
      exactly the buffer is stored under `${uuid}-${originalname}` and the
      request describes that object. */
  lemma UploadOnlyOnSuccess(objectUrl: string -> string, objects: map<string, seq<byte>>,
                            file: Option<IncomingFile>, v: Validators, io: UploadIo)
    ensures var (r, info, objects') := HandleFileUploadSpec(objectUrl, objects, file, v, io);
            && (r.Next? <==> info.Some?)
            && (!r.Next? ==> objects' == objects && r.Respond? && r.status in {400, 500})
            && (r.Next? ==> && file.Some? && |file.value.buffer| > 0
                            && ProcessFile(v, file.value.buffer, file.value.originalname).Ok?
                            && var key := io.uuid + "-" + file.value.originalname;
                            && objects' == objects[key := file.value.buffer]
                            && info.value == UploadedFileInfo(objectUrl(key), key, io.uuid, file.value.originalname))
  {
  }

  /** A file that fails validation, for whatever reason, is reported to
      the client as corrupted: an unsupported extension is not named. */
  lemma ValidationFailureIsCorrupted(objectUrl: string -> string, objects: map<string, seq<byte>>,
                                     f: IncomingFile, v: Validators, io: UploadIo)
    requires io.multerError.None? && |f.buffer| > 0
    requires ValidateFile(v, f.buffer, f.originalname).Invalid?
    ensures HandleFileUploadSpec(objectUrl, objects, Some(f), v, io) == (Respond(500, FileCorrupted), None, objects)
  {
  }

  /** The validators as written: `PDFDocument`, `sharp` and `mammoth` are
      not bound in the module, so each check throws a `ReferenceError`
      inside its own `try` and reports the file invalid. Decoding is
      unaffected. */
  function AsWrittenValidators(decode: seq<byte> -> string): (v: Validators)
    ensures forall b :: !v.pdf(b) && !v.image(b) && !v.docx(b)
    ensures v.decode == decode
  {
    Validators(_ => false, _ => false, _ => false, decode)
  }

  /** With the validators as written no PDF, image or docx upload is ever
      accepted: every one, however well formed, is answered "The provided
      file was corrupted." and nothing is stored. */
  lemma AsWrittenRejectsBinaryUploads(objectUrl: string -> string, objects: map<string, seq<byte>>,
                                      f: IncomingFile, decode: seq<byte> -> string, io: UploadIo)
    requires io.multerError.None? && |f.buffer| > 0
    requires FileExtension(f.originalname) in {"pdf", "jpg", "jpeg", "png", "docx"}
    ensures HandleFileUploadSpec(objectUrl, objects, Some(f), AsWrittenValidators(decode), io) ==
            (Respond(500, FileCorrupted), None, objects)
  {
  }

  /** With working checks, a well-formed PDF, image or docx upload is
      stored and handed on. */
  lemma ValidBinaryUploadIsStored(objectUrl: string -> string, objects: map<string, seq<byte>>,
                                  f: IncomingFile, v: Validators, io: UploadIo)
    requires io.multerError.None? && |f.buffer| > 0 && io.uploadOk
    requires var ext := FileExtension(f.originalname);
             (ext == "pdf" && v.pdf(f.buffer)) || (ext in {"jpg", "jpeg", "png"} && v.image(f.buffer)) ||
             (ext == "docx" && v.docx(f.buffer))
    ensures var key := UniqueFilename(io.uuid, f.originalname);
            HandleFileUploadSpec(objectUrl, objects, Some(f), v, io) ==
            (Next, Some(UploadedFileInfo(objectUrl(key), key, io.uuid, f.originalname)), objects[key := f.buffer])
  {
  }

}
