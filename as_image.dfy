/** collector/processSingleFile/convert/asImage.js: the uploaded object is
    run through OCR and the text stored as its page content. Everything
    after the bucket check runs inside one try/catch. */
module AsImage {
  import opened Wrappers
  import opened Strings
  import opened Textract
  import opened Conversion

  const ErrorProcessing := "Error processing the document."

  /** The catch-all failure: no `documents` field. */
  function ErrorProcessingResult(): (r: ConversionResult)
    ensures !r.success && r.documents.None? && r.reason == Some(ErrorProcessing)
  {
    ConversionResult(false, Some(ErrorProcessing), None)
  }

  /** What `asImage` returns and leaves in the stores. */
  function AsImageSpec(env: Env, st: CollectorState, u: UploadedFile): (Run, CollectorState)
    requires st.repliesRead <= |env.provider.replies|
  {
    if env.bucketName == "" then (Returned(MissingBucketResult()), st)
    else if NewTextractService(env.awsRegion, env.awsAccessKeyId, env.awsSecretAccessKey).Err? then
      (Returned(ErrorProcessingResult()), st)
    else
      var (ocr, next) := Ocr(env, SourceKey(u), st.repliesRead);
      var st1 := st.(repliesRead := next);
      match ocr
      case Stalled => (Hung, st1)
      case Raised(_) => (Returned(ErrorProcessingResult()), st1)
      case Extracted(extractedText) =>
        var (stored, st2) := StoredPage(env, st1, u.id, PageContentKey(u), extractedText);
        match stored
        case Err(_) => (Returned(ErrorProcessingResult()), st2)
        case Ok(rec) => (Returned(SuccessResult(FileRow(u.id, rec))), st2)
  }

  /** `asImage({fullFilePath, filename, uploadedFile})`. */
  method AsImage(s: CollectorStores, args: ConverterArgs) returns (run: Run)
    requires s.Valid()
    modifies s`objects, s`files, s`repliesRead
    ensures s.Valid()
    ensures (run, s.State()) == AsImageSpec(s.env, old(s.State()), args.uploadedFile)
  {
    var u := args.uploadedFile;
    if s.env.bucketName == "" {
      return Returned(MissingBucketResult());
    }
    var textractService := NewTextractService(s.env.awsRegion, s.env.awsAccessKeyId,
                                              s.env.awsSecretAccessKey);
    if textractService.Err? {
      return Returned(ErrorProcessingResult());
    }
    var extractedText := s.AnalyzeObject(SourceKey(u));
    match extractedText
    case Stalled =>
      return Hung;
    case Raised(_) =>
      return Returned(ErrorProcessingResult());
    case Extracted(text) =>
      var data := s.StorePageContent(u.id, PageContentKey(u), text);
      if data.Err? {
        return Returned(ErrorProcessingResult());
      }
      run := Returned(SuccessResult(FileRow(u.id, data.value)));
  }

  /** Nothing escapes `asImage`: apart from the missing-bucket failure,
      every failure (missing credentials, a failed PDF job, a detection
      error, a missing row) is the one "Error processing the document."
      result without `documents`. */
  lemma AsImageCatchesEverything(env: Env, st: CollectorState, u: UploadedFile)
    requires st.repliesRead <= |env.provider.replies|
    ensures var run := AsImageSpec(env, st, u).0;
            && !run.Escaped?
            && (run.Returned? && !run.result.success ==>
                  run.result == (if env.bucketName == "" then MissingBucketResult() else ErrorProcessingResult()))
  {
  }

  /** A failed OCR job or missing credentials change nothing but how far
      the reply script is read: no page content is stored and no row
      updated. */
  lemma AsImageOcrFailureStoresNothing(env: Env, st: CollectorState, u: UploadedFile)
    requires st.repliesRead <= |env.provider.replies|
    requires env.bucketName != ""
    requires NewTextractService(env.awsRegion, env.awsAccessKeyId, env.awsSecretAccessKey).Err? ||
             Ocr(env, SourceKey(u), st.repliesRead).0.Raised?
    ensures var (run, st') := AsImageSpec(env, st, u);
            run == Returned(ErrorProcessingResult()) && st'.(repliesRead := st.repliesRead) == st
  {
  }

  /** A PDF whose job settles without succeeding reads no result page and
      ends in the catch-all failure. */
  lemma AsImageFailedPdfJob(env: Env, st: CollectorState, u: UploadedFile, j: nat)
    requires st.repliesRead <= j < |env.provider.replies|
    requires env.bucketName != "" && env.awsRegion != "" && env.awsAccessKeyId != "" &&
             env.awsSecretAccessKey != ""
    requires IsPdfKey(SourceKey(u))
    requires forall k :: st.repliesRead <= k < j ==> env.provider.replies[k].jobStatus == InProgress
    requires env.provider.replies[j].jobStatus != InProgress && env.provider.replies[j].jobStatus != Succeeded
    ensures AsImageSpec(env, st, u) == (Returned(ErrorProcessingResult()), st.(repliesRead := j + 1))
  {
    FailedJobReadsNoResults(env.provider.replies, st.repliesRead, j);
  }

  /** Empty OCR text is not rejected: it is stored and the row gets a word
      count of one. */
  lemma AsImageAcceptsEmptyText(env: Env, st: CollectorState, u: UploadedFile)
    requires st.repliesRead <= |env.provider.replies|
    requires env.bucketName != "" && env.awsRegion != "" && env.awsAccessKeyId != "" &&
             env.awsSecretAccessKey != ""
    requires Ocr(env, SourceKey(u), st.repliesRead).0 == Extracted("") && u.id in st.files
    ensures var (run, st') := AsImageSpec(env, st, u);
            && run.Returned? && run.result.success
            && st'.objects == st.objects[PageContentKey(u) := ""]
            && st'.files[u.id].wordCount == 1
  {
  }

}
