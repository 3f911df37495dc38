/** collector/processSingleFile/convert/asDocx.js: a managed-upload docx is
    written to a temporary file, loaded, and its non-empty page contents
    joined with `"\n"` are stored as its page content. */
module AsDocx {
  import opened Wrappers
  import opened Strings
  import opened NodePath
  import opened Conversion

  /** `.filter((content) => content && content.length > 0)`: the non-empty
      page contents, in order (a missing `pageContent` is `""`). */
  function NonEmptyContents(docs: seq<string>): (r: seq<string>)
    ensures |r| <= |docs|
    ensures forall i :: 0 <= i < |r| ==> r[i] != ""
    ensures forall x :: x in r <==> x in docs && x != ""
    ensures multiset(r) == multiset(docs)["" := 0]
  {
    if docs == [] then []
    else
      var rest := NonEmptyContents(docs[1..]);
      assert forall x :: x in docs <==> x == docs[0] || x in docs[1..];
      assert docs == [docs[0]] + docs[1..];
      if docs[0] != "" then [docs[0]] + rest else rest
  }

  /** The filter works page by page: filtering a concatenation concatenates
      the filtered parts, so the kept pages stay in their order. */
  lemma {:induction false} NonEmptyContentsAppend(a: seq<string>, b: seq<string>)
    ensures NonEmptyContents(a + b) == NonEmptyContents(a) + NonEmptyContents(b)
    decreases |a|
  {
    if a != [] {
      assert (a + b)[1..] == a[1..] + b;
      NonEmptyContentsAppend(a[1..], b);
    } else {
      assert a + b == b;
    }
  }

  /** The name of the temporary copy in the temporary directory. */
  function TempName(u: UploadedFile): string
  {
    SourceKey(u)
  }

  /** What `asDocX` returns and leaves in the stores. The temporary file is
      removed only on the success path. */
  function AsDocxSpec(env: Env, st: CollectorState, filename: string, u: UploadedFile): (Run, CollectorState)
  {
    if env.bucketName == "" then (Returned(MissingBucketResult()), st)
    else if SourceKey(u) !in st.objects then (Escaped(NoSuchKey), st)
    else
      var fileContents := st.objects[SourceKey(u)];
      var st1 := st.(tempDirExists := true, tempFiles := st.tempFiles[TempName(u) := fileContents]);
      match env.loadDocx(fileContents)
      case Err(m) => (Escaped(m), st1)
      case Ok(docs) =>
        var pageContent := NonEmptyContents(docs);
        if pageContent == [] then (Returned(NoTextContent(filename)), st1)
        else
          var extractedText := Join(pageContent, '\n');
          var (stored, st2) := StoredPage(env, st1, u.id, PageContentKey(u), extractedText);
          match stored
          case Err(m) => (Escaped(m), st2)
          case Ok(rec) =>
            (Returned(SuccessResult(FileRow(u.id, rec))), st2.(tempFiles := st1.tempFiles - {TempName(u)}))
  }

  /** `asDocX({fullFilePath, filename, uploadedFile})`. */
  method AsDocx(s: CollectorStores, args: ConverterArgs) returns (run: Run)
    modifies s`objects, s`files, s`tempDirExists, s`tempFiles
    ensures (run, s.State()) == AsDocxSpec(s.env, old(s.State()), args.filename, args.uploadedFile)
  {
    var u := args.uploadedFile;
    if s.env.bucketName == "" {
      return Returned(MissingBucketResult());
    }
    var fileContents := s.GetObject(SourceKey(u));
    if fileContents.Err? {
      return Escaped(fileContents.message);
    }
    s.EnsureTempDirectory();
    var tempFilePath := TempName(u);
    s.WriteTempFile(tempFilePath, fileContents.value);
    var docs := s.env.loadDocx(s.tempFiles[tempFilePath]);
    if docs.Err? {
      return Escaped(docs.message);
    }
    var pageContent := NonEmptyContents(docs.value);
    if |pageContent| == 0 {
      return Returned(NoTextContent(args.filename));
    }
    var extractedText := Join(pageContent, '\n');
    var data := s.StorePageContent(u.id, PageContentKey(u), extractedText);
    if data.Err? {
      return Escaped(data.message);
    }
    s.UnlinkTempFile(tempFilePath);
    run := Returned(SuccessResult(FileRow(u.id, data.value)));
  }

  /** Without a bucket name nothing is read or written, and the failure has
      no `documents` field. */
  lemma AsDocxNeedsBucket(env: Env, st: CollectorState, filename: string, u: UploadedFile)
    requires env.bucketName == ""
    ensures AsDocxSpec(env, st, filename, u) == (Returned(ConversionResult(false, Some(MissingBucket), None)), st)
  {
  }

  /** When every loaded page is empty the result is "No text content found
      in …" with no documents, nothing is stored or updated, and the
      temporary file stays behind. */
  lemma AsDocxEmptyKeepsTempFile(env: Env, st: CollectorState, filename: string, u: UploadedFile)
    requires env.bucketName != "" && SourceKey(u) in st.objects
    requires env.loadDocx(st.objects[SourceKey(u)]).Ok?
    requires forall i :: 0 <= i < |env.loadDocx(st.objects[SourceKey(u)]).value| ==>
               env.loadDocx(st.objects[SourceKey(u)]).value[i] == ""
    ensures var (run, st') := AsDocxSpec(env, st, filename, u);
            && run == Returned(ConversionResult(false, Some("No text content found in " + filename + "."), Some([])))
            && st'.objects == st.objects && st'.files == st.files
            && st'.tempDirExists && st'.tempFiles == st.tempFiles[TempName(u) := st.objects[SourceKey(u)]]
  {
    NoContentWhenAllEmpty(env.loadDocx(st.objects[SourceKey(u)]).value);
  }

  lemma {:induction false} NoContentWhenAllEmpty(docs: seq<string>)
    requires forall i :: 0 <= i < |docs| ==> docs[i] == ""
    ensures NonEmptyContents(docs) == []
  {
    if docs != [] {
      assert forall i :: 0 <= i < |docs[1..]| ==> docs[1..][i] == docs[i + 1];
      NoContentWhenAllEmpty(docs[1..]);
    }
  }

  /** On success the stored text is the non-empty pages joined with `"\n"`,
      the row is filled from it, the temporary file is gone (other
      temporary files are untouched) and the result carries the row. */
  lemma AsDocxSuccess(env: Env, st: CollectorState, filename: string, u: UploadedFile)
    requires env.bucketName != "" && SourceKey(u) in st.objects && u.id in st.files
    requires env.loadDocx(st.objects[SourceKey(u)]).Ok?
    requires NonEmptyContents(env.loadDocx(st.objects[SourceKey(u)]).value) != []
    ensures var (run, st') := AsDocxSpec(env, st, filename, u);
            var text := Join(NonEmptyContents(env.loadDocx(st.objects[SourceKey(u)]).value), '\n');
            && st'.objects == st.objects[PageContentKey(u) := text]
            && st'.files == st.files[u.id := Filled(env, st.files[u.id], env.objectUrl(PageContentKey(u)), text)]
            && st'.files[u.id].wordCount == Count(text, ' ') + 1
            && TempName(u) !in st'.tempFiles
            && st'.tempFiles == st.tempFiles - {TempName(u)}
            && run == Returned(ConversionResult(true, None, Some([FileRow(u.id, st'.files[u.id])])))
  {
  }

  /** When no loaded page holds a line break, the stored text splits back
      on `"\n"` into exactly the non-empty pages. */
  lemma AsDocxTextSplitsIntoPages(env: Env, st: CollectorState, filename: string, u: UploadedFile)
    requires env.bucketName != "" && SourceKey(u) in st.objects
    requires env.loadDocx(st.objects[SourceKey(u)]).Ok?
    requires NonEmptyContents(env.loadDocx(st.objects[SourceKey(u)]).value) != []
    requires forall i :: 0 <= i < |env.loadDocx(st.objects[SourceKey(u)]).value| ==>
               '\n' !in env.loadDocx(st.objects[SourceKey(u)]).value[i]
    ensures var pages := NonEmptyContents(env.loadDocx(st.objects[SourceKey(u)]).value);
            && AsDocxSpec(env, st, filename, u).1.objects[PageContentKey(u)] == Join(pages, '\n')
            && Split(Join(pages, '\n'), '\n') == pages
  {
    var docs := env.loadDocx(st.objects[SourceKey(u)]).value;
    var pages := NonEmptyContents(docs);
    forall i | 0 <= i < |pages|
      ensures '\n' !in pages[i]
    {
      assert pages[i] in docs;
    }
    SplitJoin(pages, '\n');
  }

}
