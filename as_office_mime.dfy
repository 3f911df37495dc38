/** collector/processSingleFile/convert/asOfficeMime.js: a file dropped in
    the collector's hotdir is parsed, copied to the server's download folder
    and written to the server's documents, and the source is trashed. */
module AsOfficeMime {
  import opened Wrappers
  import opened Strings
  import opened NodePath
  import opened Conversion

  const FailedToCreateDirectory := "Failed to create destination directory."
  const NoAuthor := "no author found"
  const NoDescription := "No description found."
  const OfficeSource := "Office file uploaded by the user."

  /** The I/O outcomes and fresh values the converter depends on: whether
      `mkdirSync` and `copyFileSync` succeed, the `v4()` id and
      `createdDate` of the source. */
  datatype OfficeIo = OfficeIo(mkdirOk: bool, copyOk: bool, id: string, published: string)

  /** `fullFilePath = ""`: an absent path is the empty string. */
  function SourcePath(args: ConverterArgs): string
  {
    if args.fullFilePath.Some? then args.fullFilePath.value else ""
  }

  /** What `parseOfficeAsync` leaves in `content`: the parsed text, or `""`
      when the file is missing or the parser throws. */
  function ParsedContent(env: Env, localFiles: map<string, string>, path: string): (content: string)
    ensures path !in localFiles ==> content == ""
    ensures path in localFiles && env.parseOffice(localFiles[path]).Err? ==> content == ""
    ensures path in localFiles && env.parseOffice(localFiles[path]).Ok? ==>
              content == env.parseOffice(localFiles[path]).value
  {
    if path !in localFiles then ""
    else match env.parseOffice(localFiles[path])
         case Ok(text) => text
         case Err(_) => ""
  }

  /** `path.join(destinationDirectory, filename)`. */
  function DestinationPath(env: Env, filename: string): AbsPath
  {
    JoinPath(env.downloadDir, filename)
  }

  /** `Failed to write file to ${destinationPath}.`, with `documents: []`. */
  function CopyFailed(dest: AbsPath): (r: ConversionResult)
    ensures !r.success && r.documents == Some([])
  {
    ConversionResult(false, Some("Failed to write file to " + AbsPathString(dest) + "."), Some([]))
  }

  /** The document built from the parsed content. */
  function OfficeDocument(env: Env, io: OfficeIo, path: string, filename: string, content: string): DocumentData
  {
    DocumentData(io.id, "file://" + path, filename, NoAuthor, NoDescription, OfficeSource, "",
                 io.published, WordCount(content), content, env.tokenCount(content))
  }

  /** `${slugify(filename)}-${data.id}`: the name the document is written
      under. */
  function DocumentName(env: Env, filename: string, id: string): string
  {
    env.slugify(filename) + "-" + id
  }

  /** What `asOfficeMime` returns and leaves in the stores. */
  function AsOfficeMimeSpec(env: Env, st: CollectorState, args: ConverterArgs, io: OfficeIo): (Run, CollectorState)
  {
    var path := SourcePath(args);
    var content := ParsedContent(env, st.localFiles, path);
    if content == "" then
      (Returned(NoTextContent(args.filename)), st.(localFiles := st.localFiles - {path}))
    else if !io.mkdirOk then
      (Returned(ConversionResult(false, Some(FailedToCreateDirectory), Some([]))), st)
    else if !io.copyOk then
      (Returned(CopyFailed(DestinationPath(env, args.filename))), st)
    else
      var data := OfficeDocument(env, io, path, args.filename, content);
      (Returned(SuccessResult(LocalDocument(data))),
       st.(downloads := st.downloads[DestinationPath(env, args.filename).segs := st.localFiles[path]],
           serverDocuments := st.serverDocuments[DocumentName(env, args.filename, io.id) := data],
           localFiles := st.localFiles - {path}))
  }

  /** `asOfficeMime({fullFilePath, filename})`. */
  method AsOfficeMime(s: CollectorStores, args: ConverterArgs, io: OfficeIo) returns (run: Run)
    modifies s`localFiles, s`downloads, s`serverDocuments
    ensures (run, s.State()) == AsOfficeMimeSpec(s.env, old(s.State()), args, io)
  {
    var fullFilePath := SourcePath(args);
    var filename := args.filename;
    var content := "";
    if fullFilePath in s.localFiles {
      var parsed := s.env.parseOffice(s.localFiles[fullFilePath]);
      if parsed.Ok? {
        content := parsed.value;
      }
    }
    if |content| == 0 {
      s.TrashFile(fullFilePath);
      return Returned(NoTextContent(filename));
    }
    var destinationPath := DestinationPath(s.env, filename);
    if !io.mkdirOk {
      return Returned(ConversionResult(false, Some(FailedToCreateDirectory), Some([])));
    }
    if !io.copyOk {
      return Returned(CopyFailed(destinationPath));
    }
    s.CopyToDownloads(fullFilePath, destinationPath.segs);
    var data := OfficeDocument(s.env, io, fullFilePath, filename, content);
    var document := s.WriteToServerDocuments(data, DocumentName(s.env, filename, io.id));
    s.TrashFile(fullFilePath);
    run := Returned(SuccessResult(LocalDocument(document)));
  }

  /** A parser failure is swallowed: when the file is missing or cannot be
      parsed, the result is "No text content found in …" with no
      documents, the source is trashed and nothing else changes. */
  lemma OfficeParseFailureTrashes(env: Env, st: CollectorState, args: ConverterArgs, io: OfficeIo)
    requires SourcePath(args) !in st.localFiles || env.parseOffice(st.localFiles[SourcePath(args)]).Err?
    ensures var (run, st') := AsOfficeMimeSpec(env, st, args, io);
            && run == Returned(ConversionResult(false, Some("No text content found in " + args.filename + "."), Some([])))
            && SourcePath(args) !in st'.localFiles
            && st' == st.(localFiles := st.localFiles - {SourcePath(args)})
  {
  }

  /** When the directory cannot be created or the copy fails, the result
      is a failure with no documents and the source is not trashed:
      nothing changes at all. */
  lemma OfficeWriteFailureKeepsSource(env: Env, st: CollectorState, args: ConverterArgs, io: OfficeIo)
    requires ParsedContent(env, st.localFiles, SourcePath(args)) != ""
    requires !io.mkdirOk || !io.copyOk
    ensures var (run, st') := AsOfficeMimeSpec(env, st, args, io);
            && run.Returned? && !run.result.success && run.result.documents == Some([])
            && run.result.reason == Some(if !io.mkdirOk then FailedToCreateDirectory
                                         else "Failed to write file to " +
                                              AbsPathString(JoinPath(env.downloadDir, args.filename)) + ".")
            && SourcePath(args) in st'.localFiles
            && st' == st
  {
  }

  /** On success the source's bytes are copied to the download folder, the
      document (titled with the filename, pointing at the source with a
      `file://` URL, holding the parsed content and its counts) is written
      under `${slugify(filename)}-${id}`, the source is trashed, and the
      result carries that document. */
  lemma OfficeSuccess(env: Env, st: CollectorState, args: ConverterArgs, io: OfficeIo)
    requires ParsedContent(env, st.localFiles, SourcePath(args)) != ""
    requires io.mkdirOk && io.copyOk
    ensures var (run, st') := AsOfficeMimeSpec(env, st, args, io);
            var path := SourcePath(args);
            var content := ParsedContent(env, st.localFiles, path);
            var name := env.slugify(args.filename) + "-" + io.id;
            && path in st.localFiles
            && content == env.parseOffice(st.localFiles[path]).value
            && name in st'.serverDocuments
            && var d := st'.serverDocuments[name];
            && d.title == args.filename && d.url == "file://" + path && d.pageContent == content
            && d.id == io.id && d.wordCount == Count(content, ' ') + 1
            && d.tokenCountEstimate == env.tokenCount(content)
            && st'.downloads == st.downloads[JoinPath(env.downloadDir, args.filename).segs := st.localFiles[path]]
            && st'.localFiles == st.localFiles - {path}
            && run == Returned(ConversionResult(true, None, Some([LocalDocument(d)])))
            && st'.(localFiles := st.localFiles, downloads := st.downloads,
                    serverDocuments := st.serverDocuments) == st
  {
  }

  /** Called without a path, as the extension dispatcher calls every
      converter, the office converter parses the file at `""`; unless such
      a file exists it finds no text, whatever the upload holds. */
  lemma OfficeWithoutPath(env: Env, st: CollectorState, filename: string, u: UploadedFile, io: OfficeIo)
    requires "" !in st.localFiles
    ensures AsOfficeMimeSpec(env, st, ConverterArgs(None, filename, u), io) ==
            (Returned(NoTextContent(filename)), st)
  {
    assert st.localFiles - {""} == st.localFiles;
  }

}
