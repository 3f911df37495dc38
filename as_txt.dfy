/** collector/processSingleFile/convert/asTxt.js: a managed-upload text
    file is copied to its page-content key and its `file` row updated. */
module AsTxt {
  import opened Wrappers
  import opened Strings
  import opened NodePath
  import opened Conversion

  /** What `asTxt` returns and leaves in the stores. There is no
      empty-content check; a missing object or row throws out of it. */
  function AsTxtSpec(env: Env, st: CollectorState, u: UploadedFile): (Run, CollectorState)
  {
    if env.bucketName == "" then (Returned(MissingBucketResult()), st)
    else if SourceKey(u) !in st.objects then (Escaped(NoSuchKey), st)
    else
      var (stored, st1) := StoredPage(env, st, u.id, PageContentKey(u), st.objects[SourceKey(u)]);
      match stored
      case Err(m) => (Escaped(m), st1)
      case Ok(rec) => (Returned(SuccessResult(FileRow(u.id, rec))), st1)
  }

  /** `asTxt({fullFilePath, filename, uploadedFile})`. */
  method AsTxt(s: CollectorStores, args: ConverterArgs) returns (run: Run)
    modifies s`objects, s`files
    ensures (run, s.State()) == AsTxtSpec(s.env, old(s.State()), args.uploadedFile)
  {
    var u := args.uploadedFile;
    if s.env.bucketName == "" {
      return Returned(MissingBucketResult());
    }
    var fileContents := s.GetObject(SourceKey(u));
    if fileContents.Err? {
      return Escaped(fileContents.message);
    }
    var data := s.StorePageContent(u.id, PageContentKey(u), fileContents.value);
    if data.Err? {
      return Escaped(data.message);
    }
    run := Returned(SuccessResult(FileRow(u.id, data.value)));
  }

  /** Without a bucket name nothing is read or written, and the failure has
      no `documents` field. */
  lemma AsTxtNeedsBucket(env: Env, st: CollectorState, u: UploadedFile)
    requires env.bucketName == ""
    ensures AsTxtSpec(env, st, u) == (Returned(ConversionResult(false, Some(MissingBucket), None)), st)
  {
  }

  /** On success the uploaded contents are stored unchanged under the
      page-content key, which is a `.txt` key; the row gets that key's URL,
      the word count (spaces plus one) and the token estimate; the result
      carries the updated row; nothing else changes. */
  lemma AsTxtCopiesContents(env: Env, st: CollectorState, u: UploadedFile)
    requires env.bucketName != "" && SourceKey(u) in st.objects && u.id in st.files
    ensures var (run, st') := AsTxtSpec(env, st, u);
            var contents := st.objects[SourceKey(u)];
            && st'.objects == st.objects[PageContentKey(u) := contents]
            && ExtName(PageContentKey(u)) == ".txt"
            && st'.files.Keys == st.files.Keys
            && (forall id :: id in st.files && id != u.id ==> st'.files[id] == st.files[id])
            && st'.files[u.id].pageContentUrl == env.objectUrl(PageContentKey(u))
            && st'.files[u.id].wordCount == Count(contents, ' ') + 1
            && st'.files[u.id].tokenCountEstimate == env.tokenCount(contents)
            && st'.files[u.id].title == st.files[u.id].title
            && run == Returned(ConversionResult(true, None, Some([FileRow(u.id, st'.files[u.id])])))
            && st'.(objects := st.objects, files := st.files) == st
  {
    PageContentKeyIsText(u);
  }

  /** Empty contents still succeed, with a word count of one. */
  lemma AsTxtAcceptsEmpty(env: Env, st: CollectorState, u: UploadedFile)
    requires env.bucketName != "" && SourceKey(u) in st.objects && u.id in st.files
    requires st.objects[SourceKey(u)] == ""
    ensures AsTxtSpec(env, st, u).0.Returned? && AsTxtSpec(env, st, u).0.result.success
    ensures AsTxtSpec(env, st, u).1.files[u.id].wordCount == 1
  {
  }

}
