# Document ingestion core of anything-llm, in Dafny

This project models the part of anything-llm that turns uploaded files into
text records and keeps three stores consistent: the source files under the
documents root, the vector cache (one chunk list per digest of a file name),
and the workspace-to-document associations. It covers:

- **Server file store** (`server_files.dfy`, module `ServerFiles`):
  - `normalizePath` and `isWithin`, with `isWithin` on segment paths in
    `node_path.dfy`;
  - the vector cache: store, look up, purge, and "is anything cached";
  - `purgeSourceDocument`, `fileData` and `findDocumentInDocuments`, as
    methods of a `Storage` class whose fields are the stores.
- **Purge coordinator** (`purge_document.dfy`, module `PurgeCoordinator`):
  - `purgeDocument` as written, and a corrected version;
  - `purgeFolder`, with a ghost log of deletions that records the order in
    which they happen.
- **OCR job controller** (`textract.dfy`, module `Textract`):
  - the constructor's credentials check;
  - polling until the job settles, and collecting result replies;
  - the two text-assembly rules: image lines joined with `"\n"`, PDF lines
    joined with nothing;
  - `analyzeS3Document`'s choice between the PDF and image paths.
  - The Textract endpoint is a finite script of replies.
- **Converters**, sharing `convert_common.dfy` (module `Conversion`, with
  the `CollectorStores` class holding the bucket, the `file` table, the
  temporary directory, local files, downloads and server documents):
  - `asTxt`, `asDocX` and `asImage` (managed uploads);
  - `asOfficeMime` (a file dropped locally).
  - Each is a method proved equal to a specification function, plus
    lemmas about that function.
- **Extension dispatcher** (`dispatcher.dfy`): `processSingleFile`, generic
  over the converter registry.
- **Upload validation** (`upload.dfy`): `handleFileUpload` from
  `server/utils/files/multer.js`, covering extension classification,
  validation collapse and the unique object key.

`strings.dfy` holds the JavaScript string operations the code uses (`split`,
`join`, `trim`, `toLowerCase`), and `wrappers.dfy` holds `Option`, `Result`
and `Outcome`. A thrown exception is an `Err`, `Threw`, `Raised` or
`Escaped` value carrying its message. Foreign computations are function
parameters:

- the digest, the tokenizer, `slugify`, and the docx/office parsers;
- the Textract and S3 answers;
- the `v4()` values and I/O outcomes.

Where the specification and the code disagree, the model follows the code:

- **Word count.** It is `split(" ").length`, so it is the number of spaces
  plus one, and `""` counts as 1. It is not a count of whitespace-separated
  tokens.
- **Converters can throw.** `asTxt` and `asDocX` let storage errors escape
  as exceptions (`Run.Escaped`) instead of returning a failure.
- **`custom-documents`.** `purgeFolder("custom-documents")` also keeps the
  folder's database record, not just its files.
- **Directory creation in `asOfficeMime`.** A failure to create the
  directory ends the conversion with a failure result. It is not a logged,
  best-effort step.

## Model

| member | source | states |
|---|---|---|
| ServerFiles.NormalizePath | server/utils/files/index.js:249-256 | the result is the cleaned path (normalized, leading parent references removed, trimmed); the call throws "Invalid path." exactly when that path is `..`, `.` or `/`, so an accepted path is none of them |
| ServerFiles.StripParentRefsRemovesLeadingRun | server/utils/files/index.js:252 | what the replace removes is a run of `../`, `..\` and final `..` units, and no such unit is left at the front of the rest |
| ServerFiles.NormalizePathIsTrimmed | server/utils/files/index.js:250-255 | an accepted path has no white space at either end |
| ServerFiles.NormalizePathOfBlank | server/utils/files/index.js:249-254 | an empty or all-blank name normalizes to `.` and is rejected with "Invalid path." |
| ServerFiles.NormalizePathOfName | server/utils/files/index.js:249-255 | a single ordinary name without surrounding white space passes through unchanged |
| ServerFiles.NormalizePathCanKeepParentRef | server/utils/files/index.js:250-253 | the final trim runs after the parent run is removed, so `"../ ../a"` comes out as `"../a"` and still starts with a parent reference |
| ServerFiles.NormalizePathArg | server/utils/files/index.js:249-251 | a file object (no `trim`) throws a TypeError; a string behaves as `NormalizePath` |
| NodePath.IsWithinIffBelow | server/utils/files/index.js:243-247 | for resolved paths, `isWithin(outer, inner)` holds exactly when the two differ and `inner`'s segments extend `outer`'s; in particular `isWithin(p, p)` is false |
| ServerFiles.Storage.CachedVectorInformation | server/utils/files/index.js:143-158 | check-only mode gives the bare flag; the flag is set exactly when the name is non-empty and its digest is cached; the record form carries the cached chunks, or `[]` when nothing is cached |
| ServerFiles.Storage.StoreVectorResult | server/utils/files/index.js:162-173 | an empty name changes nothing; otherwise the cache directory exists, only the digest's entry changes, and a later lookup returns `{exists: true, chunks}` (true in check-only mode) |
| ServerFiles.Storage.PurgeVectorCache | server/utils/files/index.js:193-202 | only the entry of the name's digest is removed; an empty name or an absent entry changes nothing, so purging twice is purging once |
| ServerFiles.Storage.HasVectorCachedFiles | server/utils/files/index.js:261-269 | true exactly when some cache entry exists |
| ServerFiles.Storage.PurgeSourceDocument | server/utils/files/index.js:176-190 | an error from `normalizePath` is thrown with no change; otherwise a file is removed exactly when the resolved path exists, is within the root and is a regular file, and nothing else changes |
| ServerFiles.Storage.PurgeNormalizedSource | server/utils/files/index.js:178-189 | every path removed was a regular file strictly below the documents root |
| ServerFiles.SourceTargetIsBelowRoot | server/utils/files/index.js:178-185 | the file chosen for removal is an existing regular file strictly below the root, whatever the argument |
| ServerFiles.Storage.FileData | server/utils/files/index.js:18-26 | an empty path throws "No docPath provided in request", and a `normalizePath` error propagates. Otherwise `full` is the root joined with the normalized path. The result is `null` exactly when `full` does not exist or is not within the root. Reading a directory throws EISDIR exactly when `full` is a directory within the root. A returned record is the content of the file at `full`, which lies strictly below the root |
| ServerFiles.Storage.FileDataOfName | server/utils/files/index.js:18-26 | a plain name reads back the entry directly below the root under that name: its record, `null` when there is none, EISDIR for a folder |
| ServerFiles.Storage.FindDocumentInDocuments | server/utils/files/index.js:206-235 | `null` for an empty name; otherwise the result of the first folder, in listing order, that holds the normalized name, with `cached` looked up under `folder/name` |
| ServerFiles.FirstStopIsFirstHit | server/utils/files/index.js:208-234 | the search finds nothing exactly when every folder is skipped; otherwise its result comes from the first folder that is not skipped |
| ServerFiles.SubtreeRemoved | server/utils/files/purgeDocument.js:96 | after a recursive remove, exactly the paths at or below the directory are gone and every other path is unchanged |
| ServerFiles.Storage.RemoveDocuments | server/utils/files/purgeDocument.js:21 | one workspace loses exactly the given paths, and the removal is logged |
| ServerFiles.Storage.DeleteFolderRecord | server/utils/files/purgeDocument.js:41-45 | the folder record is gone, and the deletion is logged |
| ServerFiles.Storage.RemoveTree | server/utils/files/purgeDocument.js:96 | the directory's subtree is removed, and the removal is logged |
| PurgeCoordinator.RemoveFromEveryWorkspace | server/utils/files/purgeDocument.js:19-22 | every workspace keeps its key and loses exactly the given paths; only association removals are logged |
| PurgeCoordinator.PurgeDocument | server/utils/files/purgeDocument.js:14-24 | as written (the file object is passed to the source step), the new stores and the outcome are those of `PurgeDocumentSpec` |
| PurgeCoordinator.PurgeDocumentCorrected | server/utils/files/purgeDocument.js:14-24 | with `file.name` passed to the source step, the new stores and the outcome are those of `PurgeDocumentSpec` |
| PurgeCoordinator.PurgeDocumentWith | server/utils/files/purgeDocument.js:14-24 | both argument choices meet `PurgeDocumentSpec` |
| PurgeCoordinator.PurgeNormalizedDocument | server/utils/files/purgeDocument.js:17-23 | after the guard, the cache purge, the source step and the workspace loop together meet `PurgeDocumentSpec` |
| PurgeCoordinator.PurgeDocumentAsWrittenThrows | server/utils/files/purgeDocument.js:17-18 | as written, every name past the guard throws "filepath.trim is not a function": the cache entry is gone, and the source file and all associations are left as they were |
| PurgeCoordinator.PurgeDocumentCorrectedRemovesEverywhere | server/utils/files/purgeDocument.js:17-22 | corrected: the cache entry, the source file (when it is a regular file within the root) and the name in every workspace are removed, and nothing else changes |
| PurgeCoordinator.PurgeDocumentGuards | server/utils/files/purgeDocument.js:15 | a `null` file, or a name that normalizes to `""`, is a no-op; a name `normalizePath` rejects throws before any store changes |
| PurgeCoordinator.NormalizedNameIsPresent | server/utils/files/purgeDocument.js:15 | an accepted non-empty normalized name comes from a non-blank name, so the `!filename` guards further on never apply |
| PurgeCoordinator.RemovableSubFolders | server/utils/files/purgeDocument.js:50-60 | the listing's entries that are directories other than `custom-documents` |
| PurgeCoordinator.FolderFilenames | server/utils/files/purgeDocument.js:69-73 | one root-relative path per folder entry |
| PurgeCoordinator.PurgeFolder | server/utils/files/purgeDocument.js:26-99 | it meets `PurgeFolderSpec`. The log shows entry removals (record, cache, associations) first and the subtree removal last, the latter only for a removable folder. A folder that is not removable loses at most its record |
| PurgeCoordinator.PurgeNormalizedFolder | server/utils/files/purgeDocument.js:29-96 | for the normalized name it meets `PurgeNormalizedFolderSpec`, with the same log ordering |
| PurgeCoordinator.PurgeIfRemovable | server/utils/files/purgeDocument.js:62-96 | a folder that fails the on-disk checks changes nothing; one that passes is purged as `PurgedFolder` says |
| PurgeCoordinator.PurgeFolderOnDisk | server/utils/files/purgeDocument.js:69-96 | every entry's cache key and every workspace's associations with the entries are removed first, then the subtree |
| PurgeCoordinator.PurgeFolderKeepsCustomDocuments | server/utils/files/purgeDocument.js:28-67 | a name that normalizes to `custom-documents` changes no store at all |
| PurgeCoordinator.PurgeFolderGuards | server/utils/files/purgeDocument.js:27-28 | a missing name is a no-op; a rejected name throws before any store changes |
| PurgeCoordinator.PurgeFolderDeletesRecordFirst | server/utils/files/purgeDocument.js:32-67 | any other name loses its folder record even when the folder then fails the on-disk checks; in that case files, cache and associations are untouched |
| PurgeCoordinator.RemovableIsTopLevelDirectory | server/utils/files/purgeDocument.js:49-67 | a removable folder is a directory directly below the root, named by the normalized name, and is not `custom-documents` |
| PurgeCoordinator.PurgedFolderRemovesEntries | server/utils/files/purgeDocument.js:69-96 | after the purge: no cache key of an entry remains and other cache entries are kept; no workspace holds an entry's path and other paths are kept; exactly the subtree is gone from disk |
| Textract.NewTextractService | collector/utils/textract/index.js:12-28 | it throws "AWS credentials are required." exactly when the region, key ID or secret is missing; otherwise the client holds those three |
| Textract.SettledAt | collector/utils/textract/index.js:56-67 | the first reply from the read position whose status is not `IN_PROGRESS`, with every earlier one in progress; none if all are in progress |
| Textract.IsJobComplete | collector/utils/textract/index.js:54-70 | with k leading `IN_PROGRESS` replies it reads exactly k + 1 replies, and reports true exactly when the settling status is `SUCCEEDED` |
| Textract.SettledIsFirst | collector/utils/textract/index.js:62-67 | a settled reply preceded only by in-progress replies is the one polling stops at |
| Textract.SettledIsAbsent | collector/utils/textract/index.js:62-67 | when every remaining reply is in progress, polling never settles |
| Textract.PageCount | collector/utils/textract/index.js:76-87 | the number of replies collected is the page total when it is at least 1, and 1 otherwise |
| Textract.GetJobResults | collector/utils/textract/index.js:72-90 | it collects exactly max(1, total) consecutive replies, in call order, with the total read from the first |
| Textract.DetectedTextAppend | collector/utils/textract/index.js:94-100 | the text of more result pages is the earlier text with theirs appended |
| Textract.DetectedTextOfOnePage | collector/utils/textract/index.js:95-99 | one page contributes its `LINE` texts, each whole, in block order, with no separator |
| Textract.GetDetectedText | collector/utils/textract/index.js:92-102 | the accumulated text is the page-by-page, block-by-block concatenation of the `LINE` texts |
| Textract.ImageTextSplitsIntoLines | collector/utils/textract/index.js:132-136 | when no line holds a line break, the image text splits back into its lines, and removing the separators gives the PDF text of the same blocks |
| Textract.ProcessImageFromS3 | collector/utils/textract/index.js:118-144 | a detection error propagates; otherwise the text is the `LINE` texts joined with `"\n"` |
| Textract.FailedJobReadsNoResults | collector/utils/textract/index.js:151-157 | a job that settles without succeeding throws "Failed to process PDF." and reads no reply after the settling one |
| Textract.SucceededJobReadsItsPages | collector/utils/textract/index.js:151-158 | a successful job yields exactly the text of the result replies read after the settling one |
| Textract.ProcessPdfFromS3 | collector/utils/textract/index.js:146-163 | the result and the read position are those of `PdfOutcome` |
| Textract.AnalyzeS3Document | collector/utils/textract/index.js:104-116 | the PDF path runs exactly when the lower-cased extension is `.pdf`; otherwise the image path runs and no reply is read |
| Strings.WordCount | collector/processSingleFile/convert/asTxt.js:41 | `split(" ").length` is the number of spaces plus one |
| Conversion.MissingBucketResult | collector/processSingleFile/convert/asTxt.js:9-14 | a failure with no `documents` field |
| Conversion.NoTextContent | collector/processSingleFile/convert/asDocx.js:67-74 | a failure with `documents: []` |
| Conversion.SuccessResult | collector/processSingleFile/convert/asTxt.js:52 | success, `reason: null`, exactly one document |
| Conversion.PageContentKeyIsText | collector/processSingleFile/convert/asTxt.js:23-27 | whatever the title's extension, the page-content key is a `.txt` key in the `pageContents/` folder |
| Conversion.PageContentKeysDiffer | collector/processSingleFile/convert/asTxt.js:27 | uploads whose storage keys differ but have the same length, as the 36-character `v4()` ids do, never share a page-content key |
| Conversion.Filled | collector/processSingleFile/convert/asTxt.js:38-47 | the row keeps its title and storage key and gets the URL, spaces + 1 as word count, and the token estimate |
| Conversion.StoredPage | collector/processSingleFile/convert/asTxt.js:25-47 | the text is stored under the key; then an existing row is filled, while a missing row is an error after the object is already stored; nothing else changes |
| Conversion.CollectorStores.GetObject | collector/processSingleFile/convert/asTxt.js:18-21 | a stored object's contents, or the NoSuchKey error |
| Conversion.CollectorStores.PutObject | collector/processSingleFile/convert/asTxt.js:31-36 | the body is stored under the key and the key's URL returned |
| Conversion.CollectorStores.UpdateFile | collector/processSingleFile/convert/asTxt.js:38-47 | a missing row is an error with no change; otherwise exactly that row is filled |
| Conversion.CollectorStores.StorePageContent | collector/processSingleFile/convert/asTxt.js:31-47 | upload then update meet `StoredPage` |
| Conversion.CollectorStores.EnsureTempDirectory | collector/processSingleFile/convert/asDocx.js:12-21 | the temporary directory exists afterwards |
| Conversion.CollectorStores.WriteTempFile | collector/processSingleFile/convert/asDocx.js:48-54 | the temporary file holds the contents |
| Conversion.CollectorStores.UnlinkTempFile | collector/processSingleFile/convert/asDocx.js:104 | the temporary file is gone and the others stay |
| Conversion.CollectorStores.AnalyzeObject | collector/processSingleFile/convert/asImage.js:21-24 | OCR of the key against the endpoint, reading on from where the last job stopped, never past the script's end |
| Conversion.Ocr | collector/processSingleFile/convert/asImage.js:21-24 | the OCR outcome and the read position, which stays within the script |
| Conversion.CollectorStores.TrashFile | collector/processSingleFile/convert/asOfficeMime.js:24 | the local file is gone, with no error when absent |
| Conversion.CollectorStores.CopyToDownloads | collector/processSingleFile/convert/asOfficeMime.js:53 | the destination holds the source's bytes |
| Conversion.CollectorStores.WriteToServerDocuments | collector/processSingleFile/convert/asOfficeMime.js:77-80 | the document is stored under the name and handed back |
| AsTxt.AsTxt | collector/processSingleFile/convert/asTxt.js:7-53 | the result and the new stores are those of `AsTxtSpec` |
| AsTxt.AsTxtNeedsBucket | collector/processSingleFile/convert/asTxt.js:8-14 | without a bucket, the missing-variables failure (no `documents`) comes before any storage call |
| AsTxt.AsTxtCopiesContents | collector/processSingleFile/convert/asTxt.js:18-52 | the contents are stored unchanged under the `.txt` page-content key. Only the upload's row changes: URL, spaces + 1, token estimate. The result carries that row, and nothing else changes |
| AsTxt.AsTxtAcceptsEmpty | collector/processSingleFile/convert/asTxt.js:18-52 | empty contents still succeed, with word count 1 |
| AsDocx.NonEmptyContents | collector/processSingleFile/convert/asDocx.js:63-65 | the filter keeps exactly the non-empty contents, each as often as it occurs: the result's multiset is the input's without `""` |
| AsDocx.NonEmptyContentsAppend | collector/processSingleFile/convert/asDocx.js:63-65 | filtering a concatenation concatenates the filtered parts, so the kept pages stay in their order |
| AsDocx.NoContentWhenAllEmpty | collector/processSingleFile/convert/asDocx.js:63-65 | nothing survives the filter when every content is empty |
| AsDocx.AsDocx | collector/processSingleFile/convert/asDocx.js:24-109 | the result and the new stores are those of `AsDocxSpec` |
| AsDocx.AsDocxNeedsBucket | collector/processSingleFile/convert/asDocx.js:25-31 | without a bucket, the missing-variables failure (no `documents`) comes before any read |
| AsDocx.AsDocxEmptyKeepsTempFile | collector/processSingleFile/convert/asDocx.js:46-74 | with every page empty, the result is "No text content found in …" with `documents: []`; nothing is stored and the temporary file stays |
| AsDocx.AsDocxSuccess | collector/processSingleFile/convert/asDocx.js:78-108 | the stored text is the non-empty pages joined with `"\n"` and the row is filled from it. Only the temporary file is gone, and the result carries the row |
| AsDocx.AsDocxTextSplitsIntoPages | collector/processSingleFile/convert/asDocx.js:78-91 | when no page holds a line break, the stored text splits back into exactly the non-empty pages |
| AsImage.ErrorProcessingResult | collector/processSingleFile/convert/asImage.js:51-54 | the catch-all failure, with no `documents` field |
| AsImage.AsImage | collector/processSingleFile/convert/asImage.js:8-55 | the result and the new stores are those of `AsImageSpec` |
| AsImage.AsImageCatchesEverything | collector/processSingleFile/convert/asImage.js:16-54 | nothing escapes; every failure except the missing bucket is "Error processing the document." |
| AsImage.AsImageOcrFailureStoresNothing | collector/processSingleFile/convert/asImage.js:16-54 | missing credentials or an OCR error store nothing and update no row |
| AsImage.AsImageFailedPdfJob | collector/processSingleFile/convert/asImage.js:21-24 | a PDF job that settles without success reads no result page and ends in the catch-all failure |
| AsImage.AsImageAcceptsEmptyText | collector/processSingleFile/convert/asImage.js:21-50 | empty OCR text is stored and succeeds, with word count 1 |
| AsOfficeMime.ParsedContent | collector/processSingleFile/convert/asOfficeMime.js:15-20 | the parsed text, or `""` when the file is missing or the parser throws |
| AsOfficeMime.CopyFailed | collector/processSingleFile/convert/asOfficeMime.js:55-61 | a failure with `documents: []` |
| AsOfficeMime.AsOfficeMime | collector/processSingleFile/convert/asOfficeMime.js:13-84 | the result and the new stores are those of `AsOfficeMimeSpec` |
| AsOfficeMime.OfficeParseFailureTrashes | collector/processSingleFile/convert/asOfficeMime.js:15-30 | a missing or unparsable file gives "No text content found in …" with `documents: []`; the source is trashed and nothing else changes |
| AsOfficeMime.OfficeWriteFailureKeepsSource | collector/processSingleFile/convert/asOfficeMime.js:39-62 | a failed directory creation or copy gives a failure naming it; the source is not trashed and nothing changes |
| AsOfficeMime.OfficeSuccess | collector/processSingleFile/convert/asOfficeMime.js:63-83 | on success:<br>- the source is copied to the download folder;<br>- the document is written under `${slugify(filename)}-${id}`, titled with the filename, with a `file://` URL, the content and its counts;<br>- the source is trashed;<br>- the result carries the document |
| AsOfficeMime.OfficeWithoutPath | collector/processSingleFile/convert/asOfficeMime.js:13-30 | called without a path, as the dispatcher calls it, it finds no text unless a file named `""` exists |
| Dispatcher.Unsupported | collector/processSingleFile/index.js:17-23 | a failure with `documents: []` |
| Dispatcher.ProcessSingleFile | collector/processSingleFile/index.js:5-34 | no extension gives the no-extension failure; an unregistered lower-cased extension gives the unsupported failure naming it; otherwise the registered converter's result, called with no path and the title as filename |
| Dispatcher.Dispatch | collector/processSingleFile/index.js:6-23 | no extension, an unregistered lower-cased extension, or a registered converter; each case exactly when its condition holds |
| Dispatcher.NoExtensionRunsNothing | collector/processSingleFile/index.js:8-14 | without an extension the failure does not depend on the registry or on any converter |
| Dispatcher.UnsupportedRunsNothing | collector/processSingleFile/index.js:17-23 | an unregistered extension fails with a reason naming it, whatever the converters do; there is no text fallback |
| Dispatcher.RegisteredRunsConverter | collector/processSingleFile/index.js:25-33 | a registered extension's converter gets no path and the title as filename, and its result is returned unchanged |
| Dispatcher.DispatchIgnoresCase | collector/processSingleFile/index.js:6 | titles equal up to letter case are routed alike |
| Dispatcher.ExtNameOfLower | collector/processSingleFile/index.js:6 | `extname` commutes with lower-casing |
| Upload.FileExtension | server/utils/files/multer.js:78 | the extension holds no `.` |
| Upload.ExtensionIsLastPiece | server/utils/files/multer.js:78 | the extension is what follows the last `.`, lower-cased, whatever comes before |
| Upload.NameWithoutDot | server/utils/files/multer.js:78 | a name without `.` is taken whole as its extension |
| Upload.Kind | server/utils/files/multer.js:81-102 | supported exactly for pdf, jpg, jpeg, png, txt, md and docx; text exactly for txt and md |
| Upload.ValidateFile | server/utils/files/multer.js:77-112 | an unsupported type is invalid with "Unsupported file type: .ext", and any other failure is "Corrupted File." |
| Upload.IsTextFileValid | server/utils/files/multer.js:132-139 | under Node's UTF-8 decoding, a buffer is valid text exactly when it is not empty |
| Upload.TextUploadIsValid | server/utils/files/multer.js:69-139 | every `.txt` or `.md` upload that gets past the empty-buffer check is valid |
| Upload.ProcessFile | server/utils/files/multer.js:150-160 | the result is "File is valid." exactly when validation succeeds, and "Corrupted File." otherwise |
| Upload.ValidationByKind | server/utils/files/multer.js:77-139 | each supported kind passes exactly when its own check passes; txt/md pass exactly when the decoded text is non-empty; others are corrupted |
| Upload.UniqueFilename | server/utils/files/multer.js:171-172 | the object key is the id, a `-`, then the original name |
| Upload.UniqueFilenameIsInjective | server/utils/files/multer.js:171-172 | with ids of one width, two uploads share an object key only when they share both id and name |
| Upload.Bucket.UploadFileToS3 | server/utils/files/multer.js:176-188 | the buffer is stored under the key and the key's URL returned |
| Upload.HandleFileUpload | server/utils/files/multer.js:48-198 | the response, the bucket and `request.uploadedFile` are those of `HandleFileUploadSpec` |
| Upload.EmptyBufferRefused | server/utils/files/multer.js:69-74 | an empty buffer is refused before validation and before upload: the response does not depend on the validators |
| Upload.UploadOnlyOnSuccess | server/utils/files/multer.js:161-196 | nothing is stored unless `next()` is reached; then exactly the buffer is stored under `${uuid}-${originalname}` and the request describes that object |
| Upload.ValidationFailureIsCorrupted | server/utils/files/multer.js:150-168 | every validation failure, an unsupported type included, is answered "The provided file was corrupted." |
| Upload.AsWrittenValidators | server/utils/files/multer.js:114-148 | as written, the PDF, image and docx checks are false for every input |
| Upload.AsWrittenRejectsBinaryUploads | server/utils/files/multer.js:114-168 | as written, no PDF, image or docx upload is ever accepted |
| Upload.ValidBinaryUploadIsStored | server/utils/files/multer.js:161-196 | with working checks, a well-formed PDF, image or docx upload is stored and handed on |

## Left out

- Node's `path` module is modelled on POSIX segment sequences, and `\` is not
  treated as a separator. `path.normalize` is modelled for the strings this
  code passes to it.
- The digest (`uuidv5` over SHA-1), `v4()`, `slugify`, the tokenizer, the
  docx loader and the office parser are uninterpreted function parameters.
- `JSON.parse` and `JSON.stringify` are not modelled. Chunks are opaque
  strings, and document records are their raw text.
- Symbolic links are not modelled: `lstat` sees only files and directories.
- `readdirSync` results are parameters.
- `Promise.all` in `purgeFolder` runs its removals one after another. Each
  removes its own entry, so the final stores are the same.
- Sleeps and log output are left out.
- `ServerFiles.Storage.FileData`: returns the record text unparsed, so a
  parse error of a malformed record is not modelled.
- `Strings.ToLower`: maps only the ASCII letters, whereas `toLowerCase`
  maps all of Unicode.
- The Textract endpoint is a finite script of replies. Where the code would
  poll forever, the model ends in `Stalled`, and a converter waiting on it
  ends in `Hung`; the code itself has no such bound.
- Within the Textract endpoint:
  - the job id of `#startJob` is not modelled, since each job reads the
    replies that follow the previous one;
  - failures of `startJob` and `getJobStatus` sends are not modelled;
  - only the one-shot image detection can fail.
- The S3 service and the database are maps:
  - a missing object gives S3's NoSuchKey error;
  - a missing row gives the database's not-found error;
  - other storage failures are not modelled.
  The S3 service (`utils/s3`, `utils/aws`) and the Prisma client are not
  part of this model.
- `asDocX`:
  - the temporary directory is a flag, and its files are keyed by name;
  - failures of `writeFile` and `unlink` are not modelled;
  - a missing `pageContent` is `""`.
- `asOfficeMime`:
  - the outcomes of `mkdirSync` and `copyFileSync` are given as booleans;
  - the `v4()` id and `createdDate` are given as values;
  - `trashFile` and `writeToServerDocuments` (collector/utils/files) are not
    part of this model. They are modelled as deleting the local file (when
    present) and as storing the document under its name and returning it
    unchanged.
- The converter registry (`SUPPORTED_FILETYPE_CONVERTERS`,
  collector/utils/constants) is not part of this model, so the dispatcher
  takes it as a parameter.
- `targetFilename` and `options` of `processSingleFile` are not passed on,
  because none of the modelled converters reads them.
- Upload handling:
  - the multer middleware itself, the asset and profile-picture storages,
    the `latin1` re-decoding of names and the MIME type are left out;
  - `buffer.toString('utf-8')` is an uninterpreted function. `DecodesLikeUtf8` states the one property the text check relies on: only the empty buffer decodes to `""`;
  - `validateFile`'s own "Unsupported file type" message is modelled,
    although only the collapsed message reaches the client.
- `viewLocalFiles`, `readMetadata` and `processSubFiles` are not modelled.
  They are directory listings and database queries, and their sort order is
  not well defined.

## Findings

| source | as written | input that shows it | evidently intended | confidence | as-written member | corrected member |
|---|---|---|---|---|---|---|
| server/utils/files/purgeDocument.js:18 | `purgeSourceDocument(file)` passes the whole file object, and `normalizePath` then calls `trim` on it and throws | `purgeDocument({name: "doc.json"})`: the cache entry is purged, then a TypeError; the source file and every workspace association remain | `purgeSourceDocument(file.name)`, so that the source file and then the associations are removed too | high, not executed | PurgeCoordinator.PurgeDocumentAsWrittenThrows | PurgeCoordinator.PurgeDocumentCorrectedRemovesEverywhere |
| server/utils/files/multer.js:114-148 | `PDFDocument`, `sharp` and `mammoth` are never imported, so each check throws a ReferenceError inside its own `try` and returns false | a well-formed, non-empty `report.pdf` (or any `.jpg`, `.jpeg`, `.png`, `.docx`) is answered 500 "The provided file was corrupted." and is not stored | the checks load the file with the PDF, image and docx libraries, and accept it when that works | high, not executed | Upload.AsWrittenRejectsBinaryUploads | Upload.ValidBinaryUploadIsStored |
