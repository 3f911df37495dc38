/** server/utils/files/index.js: path sanitising (`normalizePath`,
    `isWithin`), the digest-keyed vector cache, and the source-document
    store under the documents root. */
module ServerFiles {
  import opened Wrappers
  import opened Strings
  import opened NodePath

  const InvalidPath := "Invalid path."
  /** The TypeError `normalizePath` raises when handed a non-string. */
  const TrimNotAFunction := "filepath.trim is not a function"
  const NoDocPath := "No docPath provided in request"
  /** The error `readFileSync` raises when the path is a directory. */
  const IsADirectory := "EISDIR: illegal operation on a directory, read"

  // ---------------------------------------------------------------------
  // normalizePath

  /** `s` starts with `../` or `..\`. */
  predicate StartsWithParentUnit(s: string)
  {
    |s| >= 3 && s[0] == '.' && s[1] == '.' && (s[2] == '/' || s[2] == '\\')
  }

  /** Length of the leading run that `/^(\.\.(\/|\\|$))+/` matches: `../`
      and `..\` units, and a `..` that ends the string. */
  function ParentRunLength(s: string): (k: nat)
    ensures k <= |s|
    decreases |s|
  {
    if StartsWithParentUnit(s) then 3 + ParentRunLength(s[3..])
    else if s == ".." then 2
    else 0
  }

  /** `.replace(/^(\.\.(\/|\\|$))+/, "")`. */
  function StripParentRefs(s: string): string
  {
    s[ParentRunLength(s)..]
  }

  /** A string the regular expression above matches in full. */
  predicate ParentRun(p: string)
    decreases |p|
  {
    p == "" || p == ".." || (StartsWithParentUnit(p) && ParentRun(p[3..]))
  }

  /** What the replace removes is exactly a run of parent references, and
      no further parent reference is left at the front. */
  lemma {:induction false} StripParentRefsRemovesLeadingRun(s: string)
    ensures ParentRun(s[..ParentRunLength(s)])
    ensures !StartsWithParentUnit(StripParentRefs(s)) && StripParentRefs(s) != ".."
    decreases |s|
  {
    var k := ParentRunLength(s);
    if StartsWithParentUnit(s) {
      var t := s[3..];
      var kt := ParentRunLength(t);
      StripParentRefsRemovesLeadingRun(t);
      assert k == 3 + kt;
      var p := s[..k];
      assert p[..3] == s[..3];
      assert p[3..] == t[..kt];
      assert StartsWithParentUnit(p);
      assert s[k..] == t[kt..];
    } else if s == ".." {
      assert s[..k] == "..";
    } else {
      assert s[..k] == "";
    }
  }

  /** The string `normalizePath` inspects and returns:
      `path.normalize(filepath.trim())`, the parent run removed, trimmed. */
  function CleanPath(filepath: string): string
  {
    Trim(StripParentRefs(Normalize(Trim(filepath))))
  }

  /** `normalizePath(filepath)` for a string argument. */
  function NormalizePath(filepath: string): (r: Result<string>)
    ensures r == Ok(CleanPath(filepath)) || r == Err(InvalidPath)
    ensures r.Err? <==> CleanPath(filepath) in {"..", ".", "/"}
    ensures r.Ok? ==> r.value != ".." && r.value != "." && r.value != "/"
  {
    var result := CleanPath(filepath);
    if result in {"..", ".", "/"} then Err(InvalidPath) else Ok(result)
  }

  /** A returned path has no white space at either end. */
  lemma NormalizePathIsTrimmed(filepath: string)
    ensures var r := NormalizePath(filepath);
            r.Ok? ==> r.value == [] || (!IsJsSpace(r.value[0]) && !IsJsSpace(r.value[|r.value| - 1]))
  {
    TrimHasNoOuterSpace(StripParentRefs(Normalize(Trim(filepath))));
  }

  lemma StripOfDot()
    ensures StripParentRefs(".") == "."
  {
    assert !StartsWithParentUnit(".") && "." != "..";
  }

  lemma TrimOfDot()
    ensures Trim(".") == "."
  {
    TrimOfUnspaced(".");
  }

  lemma CleanPathOfBlank(filepath: string)
    requires Trim(filepath) == []
    ensures CleanPath(filepath) == "."
  {
    NormalizeOfEmpty();
    StripOfDot();
    TrimOfDot();
  }

  /** A name that is empty or all white space normalizes to `.` and is
      rejected. */
  lemma NormalizePathOfBlank(filepath: string)
    requires Trim(filepath) == []
    ensures NormalizePath(filepath) == Err(InvalidPath)
  {
    CleanPathOfBlank(filepath);
  }

  /** An ordinary file or folder name (one segment, no surrounding space,
      not beginning with `..\`) passes through `normalizePath` unchanged. */
  lemma NormalizePathOfName(x: string)
    requires IsName(x) && !IsJsSpace(x[0]) && !IsJsSpace(x[|x| - 1])
    requires !StartsWithParentUnit(x)
    ensures NormalizePath(x) == Ok(x)
  {
    TrimOfUnspaced(x);
    NormalizeOfName(x);
    assert StripParentRefs(x) == x;
    assert CleanPath(x) == x;
    assert x != "/" by { assert "/"[0] == '/'; }
    assert x !in {"..", ".", "/"};
  }

  lemma SplitOfSpacedParents()
    ensures Split("../ ../a", '/') == ["..", " ..", "a"]
  {
    assert "../ ../a" == ".." + ['/'] + " ../a";
    assert " ../a" == " .." + ['/'] + "a";
    SplitAfterPiece("..", " ../a", '/');
    SplitAfterPiece(" ..", "a", '/');
    SplitWithoutSeparator("a", '/');
  }

  lemma FoldOfSpacedParents()
    ensures Fold([], ["..", " ..", "a"], true) == ["..", " ..", "a"]
  {
    var segs := ["..", " ..", "a"];
    assert Step([], "..", true) == [".."];
    assert Step([".."], " ..", true) == ["..", " .."];
    assert Step(["..", " .."], "a", true) == segs;
    assert segs[1..] == [" ..", "a"] && segs[1..][1..] == ["a"];
    assert Fold(segs, [], true) == segs;
  }

  lemma JoinOfSpacedParents()
    ensures Join(["..", " ..", "a"], '/') == "../ ../a"
  {
    assert Join(["a"], '/') == "a";
    assert Join([" ..", "a"], '/') == " ../a";
  }

  lemma NormalizeOfSpacedParents()
    ensures Normalize("../ ../a") == "../ ../a"
  {
    var p := "../ ../a";
    SplitOfSpacedParents();
    FoldOfSpacedParents();
    JoinOfSpacedParents();
    assert p[0] == '.' && p[|p| - 1] == 'a';
    assert "" + p + "" == p;
  }

  /** The parent run of `../ ../a` is only its first `../`. */
  lemma StripOfSpacedParents()
    ensures StripParentRefs("../ ../a") == " ../a"
  {
    var p := "../ ../a";
    assert !StartsWithParentUnit(" ../a") && " ../a" != "..";
    assert p[3..] == " ../a";
    assert StartsWithParentUnit(p);
    assert ParentRunLength(p) == 3;
  }

  lemma TrimOfSpacedRest()
    ensures Trim(" ../a") == "../a"
  {
    var q := " ../a";
    assert q[1..] == "../a";
    assert TrimStart("../a") == "../a";
    assert TrimStart(q) == "../a";
    TrimOfUnspaced("../a");
  }

  /** The final trim runs after the parent run is removed, so a space between
      two parent references leaves a leading `../` in the result. */
  lemma NormalizePathCanKeepParentRef()
    ensures NormalizePath("../ ../a") == Ok("../a")
  {
    var p := "../ ../a";
    TrimOfUnspaced(p);
    NormalizeOfSpacedParents();
    StripOfSpacedParents();
    TrimOfSpacedRest();
    assert CleanPath(p) == "../a";
    assert "../a" != "/" by { assert "/"[0] == '/'; }
    assert "../a" !in {"..", ".", "/"};
  }

  /** The argument forms `normalizePath` meets: no argument (the default
      `""` applies), a string, or a file object (which has no `trim`). */
  datatype PathArg = Missing | Text(s: string) | FileObject(name: string)

  predicate Falsy(a: PathArg)
  {
    a.Missing? || a == Text("")
  }

  function NormalizePathArg(a: PathArg): (r: Result<string>)
    ensures a.FileObject? ==> r == Err(TrimNotAFunction)
    ensures a.Text? ==> r == NormalizePath(a.s)
  {
    match a
    case Missing => NormalizePath("")
    case Text(s) => NormalizePath(s)
    case FileObject(_) => Err(TrimNotAFunction)
  }

  // ---------------------------------------------------------------------
  // Stores

  /** A vector-cache chunk record, as written by `JSON.stringify`. */
  type Chunk = string

  /** An entry of the file system: a file with its text, or a directory. */
  datatype Node = File(data: string) | Dir

  /** The two result shapes of `cachedVectorInformation`: the bare flag in
      `checkOnly` mode, the `{exists, chunks}` record otherwise. */
  datatype CacheInfo = Flag(found: bool) | Entry(found: bool, chunks: seq<Chunk>)

  /** A record returned by `findDocumentInDocuments`: the normalized name,
      the document's JSON record and whether its vectors are cached. */
  datatype FoundDocument = FoundDocument(name: string, record: string, cached: bool)

  /** The three stores' deletions, in the order they were made. */
  datatype Effect =
    | CachePurged(digest: string)
    | SourceRemoved(path: seq<string>)
    | AssociationsRemoved(workspace: string, docPaths: set<string>)
    | FolderRecordDeleted(name: string)
    | TreeRemoved(path: seq<string>)

  /** Absolute paths that are direct children of `dir`. */
  predicate ChildOf(p: seq<string>, dir: seq<string>)
  {
    |p| == |dir| + 1 && dir <= p
  }

  /** The search of `findDocumentInDocuments` over the probe results of the
      folders in order: the first probe that stops decides, and when none
      stops the result is `null`. */
  function FirstStop<T>(probes: seq<Option<Result<T>>>): Result<Option<T>>
    decreases |probes|
  {
    if probes == [] then Ok(None)
    else match probes[0]
      case None => FirstStop(probes[1..])
      case Some(Err(m)) => Err(m)
      case Some(Ok(d)) => Ok(Some(d))
  }

  /** The probe result a search result comes from. */
  function Stop<T>(r: Result<Option<T>>): Option<Result<T>>
  {
    match r
    case Err(m) => Some(Err(m))
    case Ok(None) => None
    case Ok(Some(d)) => Some(Ok(d))
  }

  /** The search finds nothing exactly when every probe skips; otherwise its
      result is that of the first probe that stops, all earlier ones having
      skipped. */
  lemma {:induction false} FirstStopIsFirstHit<T>(probes: seq<Option<Result<T>>>)
    ensures FirstStop(probes) == Ok(None) <==> forall i :: 0 <= i < |probes| ==> probes[i].None?
    ensures FirstStop(probes) != Ok(None) ==>
              exists i :: 0 <= i < |probes| && probes[i] == Stop(FirstStop(probes)) &&
                forall j :: 0 <= j < i ==> probes[j].None?
    decreases |probes|
  {
    if probes != [] {
      FirstStopIsFirstHit(probes[1..]);
      if probes[0].None? {
        assert forall i :: 1 <= i < |probes| ==> probes[i] == probes[1..][i - 1];
        if FirstStop(probes) != Ok(None) {
          var i :| 0 <= i < |probes[1..]| && probes[1..][i] == Stop(FirstStop(probes[1..])) &&
                   forall j :: 0 <= j < i ==> probes[1..][j].None?;
          assert probes[i + 1] == Stop(FirstStop(probes));
        }
      } else {
        assert probes[0] == Stop(FirstStop(probes));
      }
    }
  }

  /** The file `purgeSourceDocument` removes from `fs`, given what
      `normalizePath` made of its argument: a regular file that exists at
      the resolved name and lies within the documents root, if any. */
  function SourceTargetOf(documentsPath: seq<string>, fs: map<seq<string>, Node>,
                          normalized: Result<string>): Result<Option<seq<string>>>
  {
    match normalized
    case Err(m) => Err(m)
    case Ok(name) =>
      var p := Resolve(documentsPath, name);
      if p.segs !in fs || !IsWithin(AbsPath(documentsPath, false), p) || !fs[p.segs].File? then Ok(None)
      else Ok(Some(p.segs))
  }

  /** The file `purgeSourceDocument(arg)` removes from `fs`, if any. */
  function SourceTarget(documentsPath: seq<string>, fs: map<seq<string>, Node>, arg: PathArg)
    : Result<Option<seq<string>>>
  {
    if Falsy(arg) then Ok(None) else SourceTargetOf(documentsPath, fs, NormalizePathArg(arg))
  }

  /** Whatever the argument, the file removed is a regular file strictly
      below the documents root. */
  lemma SourceTargetIsBelowRoot(documentsPath: seq<string>, fs: map<seq<string>, Node>,
                                normalized: Result<string>)
    requires Resolved(documentsPath)
    ensures var t := SourceTargetOf(documentsPath, fs, normalized);
            t.Ok? && t.value.Some? ==>
              documentsPath < t.value.value && t.value.value in fs && fs[t.value.value].File?
  {
    if normalized.Ok? {
      IsWithinIffBelow(AbsPath(documentsPath, false), Resolve(documentsPath, normalized.value));
    }
  }

  /** `fs` after `rmSync(dir, {recursive: true})`: `dir` and everything
      below it are gone. */
  function SubtreeRemoved(fs: map<seq<string>, Node>, dir: seq<string>): (r: map<seq<string>, Node>)
    ensures forall p :: p in r <==> p in fs && !(dir <= p)
    ensures forall p :: p in r ==> r[p] == fs[p]
  {
    map p | p in fs && !(dir <= p) :: fs[p]
  }

  /** Everything the stores hold, as one value. */
  datatype Stores = Stores(fs: map<seq<string>, Node>, cacheRootExists: bool,
                           cache: map<string, seq<Chunk>>, folderRecords: set<string>,
                           workspaces: map<string, set<string>>)

  /** The three stores the server keeps consistent: the file system holding
      the documents root, the vector cache (one entry per digest), the
      folder records and the workspace-to-document associations. */
  class Storage {
    /** `documentsPath`, resolved. */
    const documentsPath: seq<string>
    /** `uuidv5(filename, uuidv5.URL)`: deterministic, otherwise unknown. */
    const digest: string -> string

    var fs: map<seq<string>, Node>
    /** Whether the vector-cache directory exists. */
    var cacheRootExists: bool
    /** The vector cache: `${digest}.json` holds the chunk list. */
    var cache: map<string, seq<Chunk>>
    /** `prisma.folder` rows, by name. */
    var folderRecords: set<string>
    /** Each workspace's associated document paths. */
    var workspaces: map<string, set<string>>
    ghost var log: seq<Effect>

    ghost predicate Valid()
      reads this
    {
      Resolved(documentsPath) && documentsPath in fs && fs[documentsPath].Dir? &&
      (forall p :: p in fs ==> Resolved(p)) &&
      (!cacheRootExists ==> cache == map[])
    }

    function State(): Stores
      reads this
    {
      Stores(fs, cacheRootExists, cache, folderRecords, workspaces)
    }

    function Root(): AbsPath
    {
      AbsPath(documentsPath, false)
    }

    /** `fs.existsSync(p)`: a path with a trailing `/` exists only as a
        directory. */
    predicate Exists(p: AbsPath)
      reads this
    {
      p.segs in fs && (p.trailingSlash ==> fs[p.segs].Dir?)
    }

    constructor (documentsPath: seq<string>, digest: string -> string,
                 fs: map<seq<string>, Node>, cacheRootExists: bool,
                 cache: map<string, seq<Chunk>>, folderRecords: set<string>,
                 workspaces: map<string, set<string>>)
      requires Resolved(documentsPath) && documentsPath in fs && fs[documentsPath].Dir?
      requires forall p :: p in fs ==> Resolved(p)
      requires !cacheRootExists ==> cache == map[]
      ensures Valid()
      ensures this.documentsPath == documentsPath && this.digest == digest && this.fs == fs
      ensures this.cacheRootExists == cacheRootExists && this.cache == cache
      ensures this.folderRecords == folderRecords && this.workspaces == workspaces
      ensures log == []
    {
      this.documentsPath := documentsPath;
      this.digest := digest;
      this.fs := fs;
      this.cacheRootExists := cacheRootExists;
      this.cache := cache;
      this.folderRecords := folderRecords;
      this.workspaces := workspaces;
      log := [];
    }

    // -------------------------------------------------------------------
    // Vector cache

    /** `cachedVectorInformation(filename, checkOnly)`. */
    function CachedVectorInformation(filename: string, checkOnly: bool): (r: CacheInfo)
      reads this
      ensures r.Flag? <==> checkOnly
      ensures filename == "" ==> r == (if checkOnly then Flag(false) else Entry(false, []))
      ensures r.found <==> filename != "" && digest(filename) in cache
      ensures r.Entry? ==> r.chunks == if r.found then cache[digest(filename)] else []
    {
      if filename == "" then (if checkOnly then Flag(false) else Entry(false, []))
      else
        var found := digest(filename) in cache;
        if checkOnly then Flag(found)
        else if !found then Entry(found, [])
        else Entry(true, cache[digest(filename)])
    }

    /** `storeVectorResult(vectorData, filename)`: creates the cache
        directory if needed and writes the entry for the filename's digest;
        a later lookup returns exactly what was written. */
    method StoreVectorResult(vectorData: seq<Chunk>, filename: string)
      requires Valid()
      modifies this`cache, this`cacheRootExists
      ensures Valid()
      ensures filename == "" ==> cache == old(cache) && cacheRootExists == old(cacheRootExists)
      ensures filename != "" ==>
                cacheRootExists && cache == old(cache)[digest(filename) := vectorData]
      ensures filename != "" ==>
                CachedVectorInformation(filename, false) == Entry(true, vectorData) &&
                CachedVectorInformation(filename, true) == Flag(true)
    {
      if filename == "" {
        return;
      }
      if !cacheRootExists {
        cacheRootExists := true;
      }
      var d := digest(filename);
      cache := cache[d := vectorData];
    }

    /** `purgeVectorCache(filename)`: removes only the entry of the
        filename's digest; an absent entry or an empty name changes nothing,
        so purging twice is purging once. */
    method PurgeVectorCache(filename: string)
      requires Valid()
      modifies this`cache, this`log
      ensures Valid()
      ensures cache == if filename == "" then old(cache) else old(cache) - {digest(filename)}
      ensures filename != "" ==> digest(filename) !in cache
      ensures filename == "" || digest(filename) !in old(cache) ==>
                cache == old(cache) && log == old(log)
      ensures filename != "" && digest(filename) in old(cache) ==>
                log == old(log) + [CachePurged(digest(filename))]
    {
      if filename == "" {
        return;
      }
      var d := digest(filename);
      if d !in cache {
        return;
      }
      cache := cache - {d};
      log := log + [CachePurged(d)];
    }

    /** `hasVectorCachedFiles()`: some `.json` entry is in the cache
        directory; a missing directory reads as none. */
    function HasVectorCachedFiles(): (r: bool)
      requires Valid()
      reads this
      ensures r <==> exists d :: d in cache
    {
      cacheRootExists && |cache| != 0
    }

    // -------------------------------------------------------------------
    // Source documents

    /** `purgeSourceDocument(arg)`: removes the resolved path only if it
        exists, is within the documents root and is a regular file; never
        anything at or above the root. */
    method PurgeSourceDocument(arg: PathArg) returns (outcome: Outcome)
      requires Valid()
      modifies this`fs, this`log
      ensures Valid()
      ensures match old(SourceTarget(documentsPath, fs, arg))
              case Err(m) => outcome == Threw(m) && fs == old(fs) && log == old(log)
              case Ok(None) => outcome == Done && fs == old(fs) && log == old(log)
              case Ok(Some(p)) => outcome == Done && fs == old(fs) - {p} &&
                                  log == old(log) + [SourceRemoved(p)]
    {
      if Falsy(arg) {
        return Done;
      }
      var name := NormalizePathArg(arg);
      outcome := PurgeNormalizedSource(name);
    }

    /** The part of `purgeSourceDocument` after `normalizePath` returned or
        threw: whatever it removes is a regular file strictly below the
        root. */
    method PurgeNormalizedSource(normalized: Result<string>) returns (outcome: Outcome)
      requires Valid()
      modifies this`fs, this`log
      ensures Valid()
      ensures match old(SourceTargetOf(documentsPath, fs, normalized))
              case Err(m) => outcome == Threw(m) && fs == old(fs) && log == old(log)
              case Ok(None) => outcome == Done && fs == old(fs) && log == old(log)
              case Ok(Some(p)) => outcome == Done && fs == old(fs) - {p} &&
                                  log == old(log) + [SourceRemoved(p)]
      ensures forall p :: p in old(fs) && p !in fs ==> documentsPath < p && old(fs)[p].File?
    {
      if normalized.Err? {
        return Threw(normalized.message);
      }
      var p := Resolve(documentsPath, normalized.value);
      if p.segs !in fs || !IsWithin(Root(), p) || !fs[p.segs].File? {
        return Done;
      }
      IsWithinIffBelow(Root(), p);
      fs := fs - {p.segs};
      log := log + [SourceRemoved(p.segs)];
      return Done;
    }

    /** `fileData(filePath)`: the JSON record of a document within the root,
        `null` when it does not exist there. */
    function FileData(filePath: string): (r: Result<Option<string>>)
      requires Valid()
      reads this
      ensures filePath == "" ==> r == Err(NoDocPath)
      ensures filePath != "" && NormalizePath(filePath).Err? ==> r == Err(NormalizePath(filePath).message)
      ensures filePath != "" && NormalizePath(filePath).Ok? ==>
                var full := Resolve(documentsPath, NormalizePath(filePath).value);
                && (r == Ok(None) <==> !Exists(full) || !IsWithin(Root(), full))
                && (r == Err(IsADirectory) <==> Exists(full) && IsWithin(Root(), full) && fs[full.segs].Dir?)
                && (r.Ok? && r.value.Some? ==> fs[full.segs] == File(r.value.value))
      ensures r.Ok? && r.value.Some? ==>
                exists p :: p in fs && documentsPath < p && fs[p] == File(r.value.value)
    {
      if filePath == "" then Err(NoDocPath)
      else match NormalizePath(filePath)
        case Err(m) => Err(m)
        case Ok(name) =>
          var full := Resolve(documentsPath, name);
          if !Exists(full) || !IsWithin(Root(), full) then Ok(None)
          else
            IsWithinIffBelow(Root(), full);
            match fs[full.segs]
            case Dir => Err(IsADirectory)
            case File(data) => Ok(Some(data))
    }

    /** A document stored directly below the root under a plain name is
        read back by that name: its record, `null` when there is no such
        entry, and the directory error for a folder. */
    lemma FileDataOfName(x: string)
      requires Valid()
      requires IsName(x) && !IsJsSpace(x[0]) && !IsJsSpace(x[|x| - 1]) && !StartsWithParentUnit(x)
      ensures documentsPath + [x] !in fs ==> FileData(x) == Ok(None)
      ensures documentsPath + [x] in fs && fs[documentsPath + [x]].File? ==>
                FileData(x) == Ok(Some(fs[documentsPath + [x]].data))
      ensures documentsPath + [x] in fs && fs[documentsPath + [x]].Dir? ==> FileData(x) == Err(IsADirectory)
    {
      NormalizePathOfName(x);
      SplitWithoutSeparator(x, '/');
      assert !StartsWith(x, "/") by { assert x[0] != '/' by { assert x[0] in x; } }
      assert Step(documentsPath, x, false) == documentsPath + [x];
      assert Fold(documentsPath, [x], false) == Fold(documentsPath + [x], [], false);
      var full := Resolve(documentsPath, x);
      assert full == AbsPath(documentsPath + [x], false);
      IsWithinIffBelow(Root(), full);
    }

    /** The target of one folder of `findDocumentInDocuments`. */
    function FolderLocation(folder: string, target: string): AbsPath
    {
      JoinPath(documentsPath, if target == "" then folder else folder + "/" + target)
    }

    /** What one iteration of `findDocumentInDocuments` does with `folder`:
        skip it (`None`), or stop with a result or an error. */
    function Probe(documentName: string, folder: string): Option<Result<FoundDocument>>
      reads this
    {
      var dir := documentsPath + [folder];
      if dir !in fs || !fs[dir].Dir? then None
      else match NormalizePath(documentName)
        case Err(m) => Some(Err(m))
        case Ok(target) =>
          var location := FolderLocation(folder, target);
          if !Exists(location) || !IsWithin(Root(), location) then None
          else match fs[location.segs]
            case Dir => Some(Err(IsADirectory))
            case File(data) =>
              Some(Ok(FoundDocument(target, data,
                                    CachedVectorInformation(folder + "/" + target, true).found)))
    }

    /** The probes of the folders, in listing order. */
    function Probes(documentName: string, folders: seq<string>): (ps: seq<Option<Result<FoundDocument>>>)
      reads this
      ensures |ps| == |folders|
    {
      seq(|folders|, i reads this requires 0 <= i < |folders| => Probe(documentName, folders[i]))
    }

    /** `listing` is what `readdirSync(documentsPath)` returns: each child of
        the root once, in the file system's order. */
    ghost predicate IsRootListing(listing: seq<string>)
      reads this
    {
      (forall i :: 0 <= i < |listing| ==> documentsPath + [listing[i]] in fs) &&
      (forall p :: p in fs && ChildOf(p, documentsPath) ==> p[|documentsPath|] in listing) &&
      (forall i, j :: 0 <= i < j < |listing| ==> listing[i] != listing[j])
    }

    /** `findDocumentInDocuments(documentName)`: the first top-level folder,
        in listing order, holding the normalized name; `null` for an empty
        name or when no folder holds it. */
    method FindDocumentInDocuments(documentName: string, listing: seq<string>)
      returns (r: Result<Option<FoundDocument>>)
      requires Valid() && IsRootListing(listing)
      ensures documentName == "" ==> r == Ok(None)
      ensures documentName != "" ==> r == FirstStop(Probes(documentName, listing))
    {
      if documentName == "" {
        return Ok(None);
      }
      var i := 0;
      while i < |listing|
        invariant 0 <= i <= |listing|
        invariant FirstStop(Probes(documentName, listing)) ==
                  FirstStop(Probes(documentName, listing)[i..])
      {
        ghost var ps := Probes(documentName, listing);
        assert ps[i..][1..] == ps[i + 1..];
        assert ps[i..][0] == Probe(documentName, listing[i]);
        var folder := listing[i];
        var dir := documentsPath + [folder];
        if !fs[dir].Dir? {
          i := i + 1;
          continue;
        }
        var target := NormalizePath(documentName);
        if target.Err? {
          return Err(target.message);
        }
        var location := FolderLocation(folder, target.value);
        if !Exists(location) || !IsWithin(Root(), location) {
          i := i + 1;
          continue;
        }
        match fs[location.segs] {
          case Dir =>
            return Err(IsADirectory);
          case File(data) =>
            var cached := CachedVectorInformation(folder + "/" + target.value, true);
            return Ok(Some(FoundDocument(target.value, data, cached.found)));
        }
      }
      return Ok(None);
    }

    // -------------------------------------------------------------------
    // Deletions used by the purge coordinator

    /** `Document.removeDocuments(workspace, docPaths)`: drops those paths
        from one workspace's associations. */
    method RemoveDocuments(workspace: string, docPaths: set<string>)
      requires Valid() && workspace in workspaces
      modifies this`workspaces, this`log
      ensures Valid()
      ensures workspaces == old(workspaces)[workspace := old(workspaces)[workspace] - docPaths]
      ensures log == old(log) + [AssociationsRemoved(workspace, docPaths)]
    {
      workspaces := workspaces[workspace := workspaces[workspace] - docPaths];
      log := log + [AssociationsRemoved(workspace, docPaths)];
    }

    /** `prisma.folder.delete({where: {name}})`. */
    method DeleteFolderRecord(name: string)
      requires Valid() && name in folderRecords
      modifies this`folderRecords, this`log
      ensures Valid()
      ensures folderRecords == old(folderRecords) - {name}
      ensures log == old(log) + [FolderRecordDeleted(name)]
    {
      folderRecords := folderRecords - {name};
      log := log + [FolderRecordDeleted(name)];
    }

    /** `fs.rmSync(dir, {recursive: true})` on a directory strictly below the
        root: that directory and everything under it disappear. */
    method RemoveTree(dir: seq<string>)
      requires Valid() && documentsPath < dir && dir in fs
      modifies this`fs, this`log
      ensures Valid()
      ensures fs == SubtreeRemoved(old(fs), dir)
      ensures log == old(log) + [TreeRemoved(dir)]
    {
      fs := SubtreeRemoved(fs, dir);
      assert documentsPath in fs by { assert !(dir <= documentsPath); }
      log := log + [TreeRemoved(dir)];
    }
  }

}
