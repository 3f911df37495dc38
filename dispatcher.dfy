/** collector/processSingleFile/index.js: an upload is handed to the
    converter registered for its lower-cased extension. The registry
    (`SUPPORTED_FILETYPE_CONVERTERS`) and the way a converter is run are
    parameters. */
module Dispatcher {
  import opened Wrappers
  import opened Strings
  import opened NodePath
  import opened Conversion

  const NoExtension := "No file extension found. This file cannot be processed."

  /** The failure for an extension the registry does not know. */
  function Unsupported(ext: string): (r: ConversionResult)
    ensures !r.success && r.documents == Some([])
  {
    ConversionResult(false, Some("File extension " + ext +
                                 " not supported for parsing and cannot be assumed as text file type."), Some([]))
  }

  /** Where a title is routed. */
  datatype Route<C> = NoExtensionFound | NotSupported(ext: string) | Convert(converter: C)

  /** The dispatch key is `path.parse(title).ext.toLowerCase()`. */
  function DispatchKey(title: string): string
  {
    ToLower(ExtName(title))
  }

  function Dispatch<C>(registry: map<string, C>, title: string): (r: Route<C>)
    ensures r.NoExtensionFound? <==> ExtName(title) == ""
    ensures r.NotSupported? <==> ExtName(title) != "" && DispatchKey(title) !in registry
    ensures r.NotSupported? ==> r.ext == DispatchKey(title)
    ensures r.Convert? ==> DispatchKey(title) in registry && r.converter == registry[DispatchKey(title)]
  {
    var ext := DispatchKey(title);
    if ext == "" then NoExtensionFound
    else if ext !in registry then NotSupported(ext)
    else Convert(registry[ext])
  }

  /** `processSingleFile(targetFilename, uploadedFile, options)`: the
      chosen converter gets no path and the title as `filename`, and what it
      returns is returned unchanged. */
  function ProcessSingleFile<C>(registry: map<string, C>, invoke: (C, ConverterArgs) -> Run,
                                uploadedFile: UploadedFile): (r: Run)
    ensures ExtName(uploadedFile.title) == "" ==>
              r == Returned(ConversionResult(false, Some(NoExtension), Some([])))
    ensures ExtName(uploadedFile.title) != "" && DispatchKey(uploadedFile.title) !in registry ==>
              r == Returned(Unsupported(DispatchKey(uploadedFile.title)))
    ensures ExtName(uploadedFile.title) != "" && DispatchKey(uploadedFile.title) in registry ==>
              r == invoke(registry[DispatchKey(uploadedFile.title)],
                          ConverterArgs(None, uploadedFile.title, uploadedFile))
  {
    match Dispatch(registry, uploadedFile.title)
    case NoExtensionFound => Returned(ConversionResult(false, Some(NoExtension), Some([])))
    case NotSupported(ext) => Returned(Unsupported(ext))
    case Convert(converter) => invoke(converter, ConverterArgs(None, uploadedFile.title, uploadedFile))
  }

  /** Without an extension no converter runs: the result does not depend on
      the registry or on the converters. */
  lemma NoExtensionRunsNothing<C>(r1: map<string, C>, i1: (C, ConverterArgs) -> Run,
                                  r2: map<string, C>, i2: (C, ConverterArgs) -> Run, u: UploadedFile)
    requires ExtName(u.title) == ""
    ensures ProcessSingleFile(r1, i1, u) == ProcessSingleFile(r2, i2, u) ==
            Returned(ConversionResult(false, Some(NoExtension), Some([])))
  {
  }

  /** An extension the registry lacks fails with a reason naming the
      lower-cased extension; no converter runs and there is no fallback to
      text. */
  lemma UnsupportedRunsNothing<C>(registry: map<string, C>, i1: (C, ConverterArgs) -> Run,
                                  i2: (C, ConverterArgs) -> Run, u: UploadedFile)
    requires ExtName(u.title) != "" && DispatchKey(u.title) !in registry
    ensures ProcessSingleFile(registry, i1, u) == ProcessSingleFile(registry, i2, u) ==
            Returned(ConversionResult(false, Some("File extension " + DispatchKey(u.title) +
                                                  " not supported for parsing and cannot be assumed as text file type."),
                                      Some([])))
  {
  }

  /** A registered extension runs its converter on `{fullFilePath:
      undefined, filename: title, uploadedFile}` and returns its result. */
  lemma RegisteredRunsConverter<C>(registry: map<string, C>, invoke: (C, ConverterArgs) -> Run, u: UploadedFile)
    requires DispatchKey(u.title) in registry && DispatchKey(u.title) != ""
    ensures ProcessSingleFile(registry, invoke, u) ==
            invoke(registry[DispatchKey(u.title)], ConverterArgs(None, u.title, u))
  {
  }

  /** Titles that differ only in letter case are routed alike. */
  lemma DispatchIgnoresCase<C>(registry: map<string, C>, a: string, b: string)
    requires ToLower(a) == ToLower(b)
    ensures Dispatch(registry, a) == Dispatch(registry, b)
  {
    ExtNameOfLower(a);
    ExtNameOfLower(b);
    LowerIsEmpty(ExtName(a));
    LowerIsEmpty(ExtName(b));
  }

  lemma LowerIsEmpty(s: string)
    ensures ToLower(s) == "" <==> s == ""
  {
  }

  /** `path.extname` commutes with lower-casing: it only looks at `/` and
      `.`, which lower-casing neither creates nor removes. */
  lemma ExtNameOfLower(p: string)
    ensures ExtName(ToLower(p)) == ToLower(ExtName(p))
  {
    BaseNameOfLower(p);
    ExtOfBaseOfLower(BaseName(p));
  }

  lemma BaseNameOfLower(p: string)
    ensures BaseName(ToLower(p)) == ToLower(BaseName(p))
  {
    StripOfLower(p);
    var q := StripTrailingSlashes(p);
    LastIndexOfLower(q, '/');
    if LastIndexOf(q, '/').Some? {
      SliceOfLower(q, LastIndexOf(q, '/').value + 1);
    }
  }

  lemma ExtOfBaseOfLower(b: string)
    ensures ExtOfBase(ToLower(b)) == ToLower(ExtOfBase(b))
  {
    LastIndexOfLower(b, '.');
    match LastIndexOf(b, '.')
    case None =>
    case Some(d) =>
      DotDotOfLower(b);
      SliceOfLower(b, d);
  }

  lemma DotDotOfLower(b: string)
    ensures ToLower(b) == ".." <==> b == ".."
  {
    if ToLower(b) == ".." {
      assert LowerChar(b[0]) == '.' && LowerChar(b[1]) == '.';
    }
  }

  lemma SliceOfLower(s: string, i: nat)
    requires i <= |s|
    ensures ToLower(s)[i..] == ToLower(s[i..])
  {
  }

  /** Lower-casing keeps every `/` and `.` where it is. */
  lemma LastIndexOfLower(s: string, c: char)
    requires c == '/' || c == '.'
    ensures LastIndexOf(ToLower(s), c) == LastIndexOf(s, c)
  {
    var t := ToLower(s);
    assert forall j :: 0 <= j < |s| ==> (t[j] == c <==> s[j] == c);
    match LastIndexOf(s, c)
    case None =>
      assert c !in t;
    case Some(i) =>
      assert t[i] in t;
  }

  lemma {:induction false} StripOfLower(p: string)
    ensures StripTrailingSlashes(ToLower(p)) == ToLower(StripTrailingSlashes(p))
    decreases |p|
  {
    if p != [] {
      var t := ToLower(p);
      assert t[..|t| - 1] == ToLower(p[..|p| - 1]);
      if p[|p| - 1] == '/' {
        StripOfLower(p[..|p| - 1]);
      }
    }
  }

}
