/** What the converters under collector/processSingleFile/convert share: the
    result they return, the environment they read, the key scheme for the
    stored objects, and the stores they change (the S3 bucket, the `file`
    table, the temporary directory, the collector's local files, the
    download folder and the server's documents). */
module Conversion {
  import opened Wrappers
  import opened Strings
  import opened NodePath
  import opened Textract

  const MissingBucket := "Missing environment variables for Document Intelligence."
  /** The message S3 gives for an object that does not exist. */
  const NoSuchKey := "The specified key does not exist."
  /** The message the database gives for an update of a missing row. */
  const RecordNotFound := "Record to update not found."

  /** The `file` row an upload created, and the three columns the converters
      fill in. */
  datatype FileRecord = FileRecord(title: string, storageKey: string, pageContentUrl: string,
                                   wordCount: nat, tokenCountEstimate: nat)

  /** `uploadedFile`: the row's id, its title and the storage key prefix. */
  datatype UploadedFile = UploadedFile(id: int, title: string, storageKey: string)

  /** The document `asOfficeMime` writes to the server's documents. */
  datatype DocumentData = DocumentData(id: string, url: string, title: string, docAuthor: string,
                                       description: string, docSource: string, chunkSource: string,
                                       published: string, wordCount: nat, pageContent: string,
                                       tokenCountEstimate: nat)

  /** An entry of `documents`: an updated `file` row, or a written document. */
  datatype Document = FileRow(id: int, record: FileRecord) | LocalDocument(data: DocumentData)

  /** `{success, reason, documents}`; `reason: null` is `None`, and a result
      with no `documents` field has `None` there. */
  datatype ConversionResult = ConversionResult(success: bool, reason: Option<string>,
                                               documents: Option<seq<Document>>)

  /** How a converter call ends: it returns a result, an exception escapes
      it, or it waits on an OCR job the scripted endpoint never settles. */
  datatype Run = Returned(result: ConversionResult) | Escaped(message: string) | Hung

  /** The argument object a converter receives. */
  datatype ConverterArgs = ConverterArgs(fullFilePath: Option<string>, filename: string,
                                         uploadedFile: UploadedFile)

  /** The environment variables and the foreign computations the converters
      call: the bucket name, the URL S3 gives a stored key, the tokenizer's
      token count, the AWS credentials, the OCR endpoint, the docx loader
      and office parser (on file contents), `slugify`, and the download
      folder's resolved path. */
  datatype Env = Env(bucketName: string, objectUrl: string -> string, tokenCount: string -> nat,
                     awsRegion: string, awsAccessKeyId: string, awsSecretAccessKey: string,
                     provider: Provider, loadDocx: string -> Result<seq<string>>,
                     parseOffice: string -> Result<string>, slugify: string -> string,
                     downloadDir: seq<string>)

  /** The stores, as values. `repliesRead` is how far the OCR endpoint's
      reply script has been read. */
  datatype CollectorState = CollectorState(objects: map<string, string>, files: map<int, FileRecord>,
                                           tempDirExists: bool, tempFiles: map<string, string>,
                                           repliesRead: nat, localFiles: map<string, string>,
                                           downloads: map<seq<string>, string>,
                                           serverDocuments: map<string, DocumentData>)

  /** The failure every managed-upload converter returns without a bucket
      name: no `documents` field. */
  function MissingBucketResult(): (r: ConversionResult)
    ensures !r.success && r.documents.None?
  {
    ConversionResult(false, Some(MissingBucket), None)
  }

  /** `No text content found in ${filename}.`, with `documents: []`. */
  function NoTextContent(filename: string): (r: ConversionResult)
    ensures !r.success && r.documents == Some([])
  {
    ConversionResult(false, Some("No text content found in " + filename + "."), Some([]))
  }

  /** The success result carrying one document. */
  function SuccessResult(d: Document): (r: ConversionResult)
    ensures r.success && r.reason.None? && r.documents == Some([d])
  {
    ConversionResult(true, None, Some([d]))
  }

  /** `${storageKey}-${title}`: the uploaded object's key. */
  function SourceKey(u: UploadedFile): string
  {
    u.storageKey + "-" + u.title
  }

  const PageContentsPrefix := "pageContents/"

  /** `pageContents/${storageKey}-${name}.txt`, where `name` is the title
      without its extension. */
  function PageContentKey(u: UploadedFile): string
  {
    PageContentsPrefix + u.storageKey + "-" + ParseName(u.title) + ".txt"
  }

  /** The stored text is itself a `.txt` object: whatever the title's
      extension, the page-content key's extension is `.txt`, and the key
      lies in the `pageContents/` folder. */
  lemma PageContentKeyIsText(u: UploadedFile)
    ensures ExtName(PageContentKey(u)) == ".txt"
    ensures StartsWith(PageContentKey(u), PageContentsPrefix)
  {
    TailHasNoSlash(u.title);
    TextKeyOf(u.storageKey, ParseName(u.title));
  }

  lemma TextKeyOf(storageKey: string, name: string)
    requires '/' !in "-" + name + ".txt"
    ensures var k := PageContentsPrefix + storageKey + "-" + name + ".txt";
            ExtName(k) == ".txt" && StartsWith(k, PageContentsPrefix)
  {
    var tail := "-" + name + ".txt";
    var head := PageContentsPrefix + storageKey;
    var k := PageContentsPrefix + storageKey + "-" + name + ".txt";
    assert k == head + tail == PageContentsPrefix + (storageKey + tail);
    PrefixStarts(PageContentsPrefix, storageKey);
    TextKeyExt(head, tail);
    PrefixStarts(PageContentsPrefix, storageKey + tail);
  }

  lemma PrefixStarts(p: string, r: string)
    ensures StartsWith(p + r, p)
  {
    assert (p + r)[..|p|] == p;
  }

  lemma TextKeyExt(head: string, tail: string)
    requires StartsWith(head, PageContentsPrefix) && '/' !in tail
    requires |tail| >= 5 && tail[|tail| - 4..] == ".txt"
    ensures ExtName(head + tail) == ".txt"
  {
    var k := head + tail;
    assert k[|head|..] == tail;
    assert k[|PageContentsPrefix| - 1] == head[..|PageContentsPrefix|][|PageContentsPrefix| - 1];
    var base := BaseNameBeforeTail(k, |PageContentsPrefix| - 1, |head|, tail);
    assert base[|base| - 4..] == tail[|tail| - 4..];
    ExtOfTxt(base);
  }

  lemma TailHasNoSlash(title: string)
    ensures '/' !in "-" + ParseName(title) + ".txt"
  {
    NameAndExtension(title);
    NoSlashInPrefix(ParseName(title), ExtName(title), BaseName(title));
    NoSlashAround(ParseName(title));
  }

  lemma NoSlashInPrefix(a: string, e: string, b: string)
    requires b == a + e && '/' !in b
    ensures '/' !in a
  {
    assert forall i :: 0 <= i < |a| ==> a[i] == b[i];
  }

  lemma NoSlashAround(name: string)
    requires '/' !in name
    ensures '/' !in "-" + name + ".txt"
  {
    var t := "-" + name + ".txt";
    assert forall i :: 1 <= i < |t| - 4 ==> t[i] == name[i - 1];
  }

  /** When the part of `k` from `h` on has no `/` and a `/` comes before
      it, the base name of `k` ends with that part. */
  lemma BaseNameBeforeTail(k: string, known: nat, h: nat, tail: string) returns (base: string)
    requires known < h <= |k| && k[known] == '/' && k[h..] == tail && '/' !in tail
    requires |tail| >= 1 && tail[|tail| - 1] != '/'
    ensures base == BaseName(k) && |base| >= |tail| && base[|base| - |tail|..] == tail
  {
    UnslashedEnd(k, tail);
    var i := LastSlashBefore(k, known, h, tail);
    BaseNameAfterSlash(k, i);
    base := k[i + 1..];
    SuffixOfSuffix(k, i + 1, h, tail);
  }

  lemma UnslashedEnd(k: string, tail: string)
    requires |tail| >= 1 && |tail| <= |k| && k[|k| - |tail|..] == tail && tail[|tail| - 1] != '/'
    ensures StripTrailingSlashes(k) == k
  {
    assert k[|k| - 1] == tail[|tail| - 1];
  }

  lemma BaseNameAfterSlash(k: string, i: nat)
    requires StripTrailingSlashes(k) == k && LastIndexOf(k, '/') == Some(i)
    ensures BaseName(k) == k[i + 1..]
  {
  }

  lemma SuffixOfSuffix(k: string, j: nat, h: nat, tail: string)
    requires j <= h <= |k| && k[h..] == tail
    ensures |k[j..]| >= |tail| && k[j..][|k[j..]| - |tail|..] == tail
  {
    assert k[j..][|k[j..]| - |tail|..] == k[h..];
  }

  lemma LastSlashBefore(k: string, known: nat, h: nat, tail: string) returns (i: nat)
    requires known < h <= |k| && k[known] == '/' && k[h..] == tail && '/' !in tail
    ensures LastIndexOf(k, '/') == Some(i) && i < h
  {
    var r := LastIndexOf(k, '/');
    i := r.value;
    assert i < h;
  }

  /** A base name that ends in `.txt` after at least one other character
      has the extension `.txt`. */
  lemma ExtOfTxt(b: string)
    requires |b| >= 5 && b[|b| - 4..] == ".txt"
    ensures ExtOfBase(b) == ".txt"
  {
    var d := |b| - 4;
    assert b[d] == '.' && b[d + 1] == 't' && b[d + 2] == 'x' && b[d + 3] == 't' by {
      assert b[d..][0] == '.';
      assert b[d..][1] == 't' && b[d..][2] == 'x' && b[d..][3] == 't';
    }
    LastIndexOfIs(b, '.', d);
    assert b != "..";
  }

  /** A `c` with no `c` after it is the last one. */
  lemma LastIndexOfIs(s: string, c: char, j: nat)
    requires j < |s| && s[j] == c && forall k :: j < k < |s| ==> s[k] != c
    ensures LastIndexOf(s, c) == Some(j)
  {
    assert s[j] in s;
  }

  /** Two uploads whose storage keys differ but have the same length (every
      `v4()` id the upload handler puts in front of the name has 36
      characters) never share a page-content key: the key is the fixed-width
      part after `pageContents/`. Keys of different lengths can collide, as
      `a-b` with `c.txt` and `a` with `b-c.txt` do. */
  lemma PageContentKeysDiffer(u: UploadedFile, v: UploadedFile)
    requires u.storageKey != v.storageKey
    requires |u.storageKey| == |v.storageKey|
    ensures PageContentKey(u) != PageContentKey(v)
  {
    TextKeysDiffer(u.storageKey, ParseName(u.title), v.storageKey, ParseName(v.title));
  }

  lemma TextKeysDiffer(k1: string, n1: string, k2: string, n2: string)
    requires k1 != k2 && |k1| == |k2|
    ensures PageContentsPrefix + k1 + "-" + n1 + ".txt" != PageContentsPrefix + k2 + "-" + n2 + ".txt"
  {
    var p := PageContentsPrefix;
    var a := p + k1 + "-" + n1 + ".txt";
    var b := p + k2 + "-" + n2 + ".txt";
    assert a[|p|..|p| + |k1|] == k1;
    assert b[|p|..|p| + |k2|] == k2;
  }

  /** The three columns a managed-upload converter writes for the text it
      stored at `url`; the other columns keep their values. */
  function Filled(env: Env, rec: FileRecord, url: string, text: string): (r: FileRecord)
    ensures r.title == rec.title && r.storageKey == rec.storageKey
    ensures r.pageContentUrl == url && r.wordCount == Count(text, ' ') + 1
    ensures r.tokenCountEstimate == env.tokenCount(text)
  {
    rec.(pageContentUrl := url, wordCount := WordCount(text), tokenCountEstimate := env.tokenCount(text))
  }

  /** Storing extracted text, the step every managed-upload converter
      ends with: the text goes under `key`, then row `id` gets the key's URL
      and the text's counts; a missing row is an error after the object is
      already stored. */
  function StoredPage(env: Env, st: CollectorState, id: int, key: string, text: string)
    : (r: (Result<FileRecord>, CollectorState))
    ensures r.1.objects == st.objects[key := text]
    ensures id !in st.files ==> r.0 == Err(RecordNotFound) && r.1.files == st.files
    ensures id in st.files ==> && r.0 == Ok(Filled(env, st.files[id], env.objectUrl(key), text))
                               && r.1.files == st.files[id := r.0.value]
    ensures r.1.(objects := st.objects, files := st.files) == st
  {
    var st1 := st.(objects := st.objects[key := text]);
    if id !in st.files then (Err(RecordNotFound), st1)
    else
      var rec := Filled(env, st.files[id], env.objectUrl(key), text);
      (Ok(rec), st1.(files := st.files[id := rec]))
  }

  /** The stores the converters change. */
  class CollectorStores {
    const env: Env
    var objects: map<string, string>
    var files: map<int, FileRecord>
    var tempDirExists: bool
    var tempFiles: map<string, string>
    var repliesRead: nat
    var localFiles: map<string, string>
    var downloads: map<seq<string>, string>
    var serverDocuments: map<string, DocumentData>

    /** The OCR endpoint's script is never read past its end. */
    predicate Valid()
      reads this
    {
      repliesRead <= |env.provider.replies|
    }

    function State(): CollectorState
      reads this
    {
      CollectorState(objects, files, tempDirExists, tempFiles, repliesRead, localFiles, downloads,
                     serverDocuments)
    }

    constructor (env: Env, st: CollectorState)
      requires st.repliesRead <= |env.provider.replies|
      ensures Valid() && this.env == env && State() == st
    {
      this.env := env;
      objects := st.objects;
      files := st.files;
      tempDirExists := st.tempDirExists;
      tempFiles := st.tempFiles;
      repliesRead := st.repliesRead;
      localFiles := st.localFiles;
      downloads := st.downloads;
      serverDocuments := st.serverDocuments;
    }

    /** `s3Service.getObject` of the bucket's `key`. */
    method GetObject(key: string) returns (r: Result<string>)
      ensures key in objects ==> r == Ok(objects[key])
      ensures key !in objects ==> r == Err(NoSuchKey)
    {
      if key in objects {
        r := Ok(objects[key]);
      } else {
        r := Err(NoSuchKey);
      }
    }

    /** `uploadFileToS3` with explicit parameters: the body is stored under
        `key` and the object's URL returned. */
    method PutObject(key: string, body: string) returns (url: string)
      modifies this`objects
      ensures objects == old(objects)[key := body]
      ensures url == env.objectUrl(key)
    {
      objects := objects[key := body];
      url := env.objectUrl(key);
    }

    /** `prisma.file.update` of the row `id` with the page-content URL and
        the counts of `text`. */
    method UpdateFile(id: int, url: string, text: string) returns (r: Result<FileRecord>)
      modifies this`files
      ensures id !in old(files) ==> r == Err(RecordNotFound) && files == old(files)
      ensures id in old(files) ==> r == Ok(Filled(env, old(files)[id], url, text)) &&
                                   files == old(files)[id := r.value]
    {
      if id in files {
        var rec := Filled(env, files[id], url, text);
        files := files[id := rec];
        r := Ok(rec);
      } else {
        r := Err(RecordNotFound);
      }
    }

    /** `uploadFileToS3` of the text under `key`, then `prisma.file.update`
        of row `id` with the returned URL. */
    method StorePageContent(id: int, key: string, text: string) returns (r: Result<FileRecord>)
      modifies this`objects, this`files
      ensures (r, State()) == StoredPage(env, old(State()), id, key, text)
    {
      var pageContentUploadUrl := PutObject(key, text);
      r := UpdateFile(id, pageContentUploadUrl, text);
    }

    /** `ensureTempDirectory`. */
    method EnsureTempDirectory()
      modifies this`tempDirExists
      ensures tempDirExists
    {
      tempDirExists := true;
    }

    method WriteTempFile(name: string, contents: string)
      modifies this`tempFiles
      ensures tempFiles == old(tempFiles)[name := contents]
    {
      tempFiles := tempFiles[name := contents];
    }

    method UnlinkTempFile(name: string)
      modifies this`tempFiles
      ensures tempFiles == old(tempFiles) - {name}
    {
      tempFiles := tempFiles - {name};
    }

    /** `analyzeS3Document` against the scripted endpoint, reading on from
        where the last job stopped. */
    method AnalyzeObject(documentKey: string) returns (r: OcrResult)
      requires Valid()
      modifies this`repliesRead
      ensures Valid()
      ensures (r, repliesRead) == Ocr(env, documentKey, old(repliesRead))
    {
      var next;
      r, next := AnalyzeS3Document(env.provider, documentKey, repliesRead);
      PdfOutcomeStaysInScript(env.provider.replies, repliesRead);
      repliesRead := next;
    }

    /** `trashFile`: the local file is gone (nothing happens if it is
        absent). */
    method TrashFile(path: string)
      modifies this`localFiles
      ensures localFiles == old(localFiles) - {path}
    {
      localFiles := localFiles - {path};
    }

    /** `fs.copyFileSync` into the download folder. */
    method CopyToDownloads(source: string, destination: seq<string>)
      requires source in localFiles
      modifies this`downloads
      ensures downloads == old(downloads)[destination := localFiles[source]]
    {
      downloads := downloads[destination := localFiles[source]];
    }

    /** `writeToServerDocuments(data, name)`: the document is stored under
        `name` and handed back. */
    method WriteToServerDocuments(data: DocumentData, name: string) returns (d: DocumentData)
      modifies this`serverDocuments
      ensures serverDocuments == old(serverDocuments)[name := data]
      ensures d == data
    {
      serverDocuments := serverDocuments[name := data];
      d := data;
    }
  }

  /** What OCR of `key` ends in, and how far the reply script is read. */
  function Ocr(env: Env, key: string, from: nat): (r: (OcrResult, nat))
    requires from <= |env.provider.replies|
    ensures from <= r.1 <= |env.provider.replies|
  {
    PdfOutcomeStaysInScript(env.provider.replies, from);
    if IsPdfKey(key) then PdfOutcome(env.provider.replies, from)
    else (ProcessImageFromS3(env.provider.detection), from)
  }

  /** The PDF path never reads past the end of the script. */
  lemma PdfOutcomeStaysInScript(replies: seq<Reply>, from: nat)
    requires from <= |replies|
    ensures from <= PdfOutcome(replies, from).1 <= |replies|
  {
  }

}
