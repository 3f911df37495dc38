/** server/utils/files/purgeDocument.js: removing a document or a whole
    folder from the three stores (source files, vector cache, workspace
    associations). The promises the source runs together are run here one
    after another, which changes nothing since each removes its own entry. */
module PurgeCoordinator {
  import opened Wrappers
  import opened Strings
  import opened NodePath
  import opened ServerFiles

  /** The folder that `purgeFolder` never removes. */
  const CustomDocuments := "custom-documents"

  /** Every workspace's associations with `paths` removed. */
  function RemoveFromAll(ws: map<string, set<string>>, paths: set<string>): (r: map<string, set<string>>)
    ensures r.Keys == ws.Keys
    ensures forall w :: w in r ==> r[w] == ws[w] - paths
  {
    map w | w in ws :: ws[w] - paths
  }

  /** The cache keys `purgeVectorCache` removes for the given file names
      (an empty name removes nothing). */
  function Digests(digest: string -> string, names: seq<string>): set<string>
  {
    set f | f in names && f != "" :: digest(f)
  }

  // ---------------------------------------------------------------------
  // purgeDocument

  /** What `purgeDocument` hands to `purgeSourceDocument`: the whole file
      object, as the source does, or its name. */
  datatype SourceArgument = WholeFile | FileName

  /** The outcome and the new stores of `purgeDocument(file)`, where `file`
      is `null` (`None`) or an object whose `name` is given (`""` for a
      missing name), and `normalized` is what `normalizePath(file.name)`
      gives. The cache entry goes first, then the source file, then every
      workspace's association with the name. Handed the whole object,
      `normalizePath` fails on its `trim` (see `NormalizePathArg`). */
  function PurgeDocumentSpec(documentsPath: seq<string>, digest: string -> string, st: Stores,
                             file: Option<string>, normalized: Result<string>,
                             passes: SourceArgument): (Outcome, Stores)
  {
    match file
    case None => (Done, st)
    case Some(name) =>
      match normalized
      case Err(m) => (Threw(m), st)
      case Ok(n) =>
        if n == "" then (Done, st)
        else
          var st1 := st.(cache := if name == "" then st.cache else st.cache - {digest(name)});
          var target := if passes == WholeFile then Err(TrimNotAFunction)
                        else if name == "" then Ok(None)
                        else SourceTargetOf(documentsPath, st1.fs, normalized);
          match target
          case Err(m) => (Threw(m), st1)
          case Ok(t) =>
            var st2 := if t.Some? then st1.(fs := st1.fs - {t.value}) else st1;
            (Done, st2.(workspaces := RemoveFromAll(st2.workspaces, {name})))
  }

  /** What `normalizePath(file.name)` gives; unused for a `null` file. */
  function NormalizedName(file: Option<string>): Result<string>
  {
    NormalizePath(if file.Some? then file.value else "")
  }

  /** `Document.removeDocuments(workspace, paths)` for every workspace
      `Workspace.where()` returns. */
  method RemoveFromEveryWorkspace(s: Storage, paths: set<string>) returns (ghost events: seq<Effect>)
    requires s.Valid()
    modifies s`workspaces, s`log
    ensures s.Valid()
    ensures s.workspaces == RemoveFromAll(old(s.workspaces), paths)
    ensures s.log == old(s.log) + events
    ensures forall e :: e in events ==> e.AssociationsRemoved?
  {
    ghost var ws0 := s.workspaces;
    ghost var log0 := s.log;
    events := [];
    var pending := s.workspaces.Keys;
    while pending != {}
      invariant s.Valid()
      invariant pending <= ws0.Keys && s.workspaces.Keys == ws0.Keys
      invariant forall w :: w in ws0 ==> s.workspaces[w] == if w in pending then ws0[w] else ws0[w] - paths
      invariant s.log == log0 + events
      invariant forall e :: e in events ==> e.AssociationsRemoved?
      decreases pending
    {
      var w :| w in pending;
      s.RemoveDocuments(w, paths);
      events := events + [AssociationsRemoved(w, paths)];
      pending := pending - {w};
    }
  }

  /** `purgeDocument(file)` as written: the file object itself is passed to
      `purgeSourceDocument`. */
  method PurgeDocument(s: Storage, file: Option<string>) returns (outcome: Outcome)
    requires s.Valid()
    modifies s
    ensures s.Valid()
    ensures (outcome, s.State()) ==
            PurgeDocumentSpec(s.documentsPath, s.digest, old(s.State()), file, NormalizedName(file), WholeFile)
  {
    outcome := PurgeDocumentWith(s, file, WholeFile);
  }

  /** `purgeDocument(file)` with `file.name` passed to
      `purgeSourceDocument`, as the other callers of that function do. */
  method PurgeDocumentCorrected(s: Storage, file: Option<string>) returns (outcome: Outcome)
    requires s.Valid()
    modifies s
    ensures s.Valid()
    ensures (outcome, s.State()) ==
            PurgeDocumentSpec(s.documentsPath, s.digest, old(s.State()), file, NormalizedName(file), FileName)
  {
    outcome := PurgeDocumentWith(s, file, FileName);
  }

  method PurgeDocumentWith(s: Storage, file: Option<string>, passes: SourceArgument)
    returns (outcome: Outcome)
    requires s.Valid()
    modifies s
    ensures s.Valid()
    ensures (outcome, s.State()) ==
            PurgeDocumentSpec(s.documentsPath, s.digest, old(s.State()), file, NormalizedName(file), passes)
  {
    if file.None? {
      return Done;
    }
    var name := file.value;
    var n := NormalizePath(name);
    outcome := PurgeNormalizedDocument(s, name, n, passes);
  }

  /** The part of `purgeDocument` after `normalizePath(file.name)` gave
      `normalized`. With the name passed on, `purgeSourceDocument`
      normalizes the same name again and gets the same result. */
  method PurgeNormalizedDocument(s: Storage, name: string, normalized: Result<string>,
                                 passes: SourceArgument) returns (outcome: Outcome)
    requires s.Valid()
    modifies s
    ensures s.Valid()
    ensures (outcome, s.State()) ==
            PurgeDocumentSpec(s.documentsPath, s.digest, old(s.State()), Some(name), normalized, passes)
  {
    if normalized.Err? {
      return Threw(normalized.message);
    }
    if normalized.value == "" {
      return Done;
    }
    s.PurgeVectorCache(name);
    if passes == WholeFile {
      assert SourceTarget(s.documentsPath, s.fs, FileObject(name)) == Err(TrimNotAFunction);
      outcome := s.PurgeSourceDocument(FileObject(name));
    } else if name == "" {
      outcome := Done;
    } else {
      outcome := s.PurgeNormalizedSource(normalized);
    }
    if outcome.Threw? {
      return;
    }
    ghost var _ := RemoveFromEveryWorkspace(s, {name});
    return Done;
  }

  /** As written, every name that survives the guard throws in the source
      step: the cache entry is gone, but the source file and every
      workspace association are left as they were. */
  lemma PurgeDocumentAsWrittenThrows(documentsPath: seq<string>, digest: string -> string,
                                      st: Stores, name: string, n: string)
    requires name != "" && n != ""
    ensures PurgeDocumentSpec(documentsPath, digest, st, Some(name), Ok(n), WholeFile) ==
            (Threw(TrimNotAFunction), st.(cache := st.cache - {digest(name)}))
  {
  }

  /** With the name passed on, the cache entry, the source file (when it is
      a file within the root) and the name's association in every workspace
      are all removed, and nothing else changes. */
  lemma PurgeDocumentCorrectedRemovesEverywhere(documentsPath: seq<string>, digest: string -> string,
                                                st: Stores, name: string, n: string)
    requires name != "" && n != ""
    ensures var (outcome, st') := PurgeDocumentSpec(documentsPath, digest, st, Some(name), Ok(n), FileName);
            outcome == Done &&
            st'.cache == st.cache - {digest(name)} &&
            st'.workspaces.Keys == st.workspaces.Keys &&
            (forall w :: w in st.workspaces ==> st'.workspaces[w] == st.workspaces[w] - {name}) &&
            st'.folderRecords == st.folderRecords && st'.cacheRootExists == st.cacheRootExists &&
            match SourceTargetOf(documentsPath, st.fs, Ok(n))
            case Ok(Some(p)) => st'.fs == st.fs - {p}
            case _ => st'.fs == st.fs
  {
  }

  /** A `null` file, or a name that normalizes to nothing, leaves the stores
      as they are; a name `normalizePath` rejects throws its error before
      any store changes. */
  lemma PurgeDocumentGuards(documentsPath: seq<string>, digest: string -> string, st: Stores,
                            file: Option<string>, normalized: Result<string>, passes: SourceArgument)
    ensures file.None? || normalized == Ok("") ==>
              PurgeDocumentSpec(documentsPath, digest, st, file, normalized, passes) == (Done, st)
    ensures file.Some? && normalized.Err? ==>
              PurgeDocumentSpec(documentsPath, digest, st, file, normalized, passes) ==
              (Threw(normalized.message), st)
  {
  }

  /** A name `normalizePath` accepts is not empty, so the guard `!file.name`
      of `purgeSourceDocument` never applies to it. */
  lemma NormalizedNameIsPresent(name: string)
    requires NormalizePath(name).Ok? && NormalizePath(name).value != ""
    ensures Trim(name) != [] && name != []
  {
    if Trim(name) == [] {
      NormalizePathOfBlank(name);
    }
  }

  // ---------------------------------------------------------------------
  // purgeFolder

  /** The entries of the root listing that `purgeFolder` may remove:
      directories other than `custom-documents`, in listing order. */
  function RemovableSubFolders(documentsPath: seq<string>, fs: map<seq<string>, Node>,
                               listing: seq<string>): (r: seq<string>)
    ensures forall x :: x in r <==>
              x in listing && x != CustomDocuments &&
              documentsPath + [x] in fs && fs[documentsPath + [x]].Dir?
    decreases |listing|
  {
    if listing == [] then []
    else
      var rest := RemovableSubFolders(documentsPath, fs, listing[1..]);
      var x := listing[0];
      assert forall y :: y in listing <==> y == x || y in listing[1..];
      if x != CustomDocuments && documentsPath + [x] in fs && fs[documentsPath + [x]].Dir?
      then [x] + rest else rest
  }

  /** The on-disk checks of `purgeFolder` for the normalized name `sub`. */
  predicate Removable(documentsPath: seq<string>, fs: map<seq<string>, Node>,
                      listing: seq<string>, sub: string)
  {
    var p := Resolve(documentsPath, sub);
    sub in RemovableSubFolders(documentsPath, fs, listing) && p.segs in fs &&
    IsWithin(AbsPath(documentsPath, false), p)
  }

  /** `path.join(subFolderPath, file).replace(documentsPath + "/", "")` for
      each entry of the folder: the entry's path relative to the root. */
  function FolderFilenames(sub: string, contents: seq<string>): (r: seq<string>)
    ensures |r| == |contents|
  {
    seq(|contents|, i requires 0 <= i < |contents| => sub + "/" + contents[i])
  }

  /** The outcome and the new stores of `purgeFolder(folderName)`, where
      `normalized` is what `normalizePath(folderName)` gives, `listing` is
      what `readdirSync(documentsPath)` returns and `contents` what
      `readdirSync` of the folder returns. */
  function PurgeFolderSpec(documentsPath: seq<string>, digest: string -> string, st: Stores,
                           folderName: string, normalized: Result<string>,
                           listing: seq<string>, contents: seq<string>): (Outcome, Stores)
  {
    if folderName == "" then (Done, st)
    else match normalized
      case Err(m) => (Threw(m), st)
      case Ok(sub) => (Done, PurgeNormalizedFolderSpec(documentsPath, digest, st, sub, listing, contents))
  }

  /** The stores after `purgeFolder` for the normalized name `sub`: the
      folder record goes unless `sub` is `custom-documents`; the on-disk
      purge follows only if the folder passes the checks. */
  function PurgeNormalizedFolderSpec(documentsPath: seq<string>, digest: string -> string, st: Stores,
                                     sub: string, listing: seq<string>, contents: seq<string>): Stores
  {
    var records := if sub != CustomDocuments && sub in st.folderRecords
                   then st.folderRecords - {sub} else st.folderRecords;
    var st1 := st.(folderRecords := records);
    if !Removable(documentsPath, st.fs, listing, sub) then st1
    else PurgedFolder(digest, st1, Resolve(documentsPath, sub).segs, FolderFilenames(sub, contents))
  }

  /** The stores after the on-disk part of `purgeFolder` for the folder at
      `dir` whose entries have the root-relative paths `files`: their cache
      entries and associations, then the subtree, are gone. */
  function PurgedFolder(digest: string -> string, st: Stores, dir: seq<string>, files: seq<string>): Stores
  {
    st.(cache := st.cache - Digests(digest, files),
        workspaces := RemoveFromAll(st.workspaces, set f | f in files),
        fs := SubtreeRemoved(st.fs, dir))
  }

  /** A removal of a folder record, a cache entry or an association. */
  predicate IsEntryRemoval(e: Effect)
  {
    e.FolderRecordDeleted? || e.CachePurged? || e.AssociationsRemoved?
  }

  /** The subtree removal `purgeFolder` ends with for the normalized name
      `sub`: none unless the folder passes the on-disk checks. */
  function FinalRemoval(documentsPath: seq<string>, fs: map<seq<string>, Node>, sub: string,
                        listing: seq<string>): seq<Effect>
  {
    if Removable(documentsPath, fs, listing, sub) then [TreeRemoved(Resolve(documentsPath, sub).segs)]
    else []
  }

  /** `purgeFolder(folderName)`. The log shows the ordering: entry removals
      (folder record, cache entries, associations) come first, and the
      folder's subtree is removed last, only when the folder passes the
      on-disk checks; a folder that fails them loses at most its record. */
  method PurgeFolder(s: Storage, folderName: string, listing: seq<string>, contents: seq<string>)
    returns (outcome: Outcome, ghost removals: seq<Effect>)
    requires s.Valid()
    modifies s
    ensures s.Valid()
    ensures (outcome, s.State()) ==
            PurgeFolderSpec(s.documentsPath, s.digest, old(s.State()), folderName,
                            NormalizePath(folderName), listing, contents)
    ensures forall e :: e in removals ==> IsEntryRemoval(e)
    ensures folderName == "" || NormalizePath(folderName).Err? ==> s.log == old(s.log)
    ensures folderName != "" && NormalizePath(folderName).Ok? ==>
              s.log == old(s.log) + removals +
                       FinalRemoval(s.documentsPath, old(s.fs), NormalizePath(folderName).value, listing)
    ensures folderName != "" && NormalizePath(folderName).Ok? &&
            !Removable(s.documentsPath, old(s.fs), listing, NormalizePath(folderName).value) ==>
              forall e :: e in removals ==> e.FolderRecordDeleted?
  {
    removals := [];
    if folderName == "" {
      return Done, removals;
    }
    var r := NormalizePath(folderName);
    if r.Err? {
      return Threw(r.message), removals;
    }
    outcome, removals := PurgeNormalizedFolder(s, r.value, listing, contents);
  }

  /** The part of `purgeFolder` after its name is normalized to `sub`. */
  method PurgeNormalizedFolder(s: Storage, sub: string, listing: seq<string>, contents: seq<string>)
    returns (outcome: Outcome, ghost removals: seq<Effect>)
    requires s.Valid()
    modifies s
    ensures s.Valid()
    ensures outcome == Done
    ensures s.State() == PurgeNormalizedFolderSpec(s.documentsPath, s.digest, old(s.State()),
                                                   sub, listing, contents)
    ensures forall e :: e in removals ==> IsEntryRemoval(e)
    ensures s.log == old(s.log) + removals + FinalRemoval(s.documentsPath, old(s.fs), sub, listing)
    ensures !Removable(s.documentsPath, old(s.fs), listing, sub) ==>
              forall e :: e in removals ==> e.FolderRecordDeleted?
  {
    removals := [];
    if sub != CustomDocuments && sub in s.folderRecords {
      s.DeleteFolderRecord(sub);
      removals := [FolderRecordDeleted(sub)];
    }
    ghost var recorded := removals;
    ghost var log1 := s.log;
    ghost var last := FinalRemoval(s.documentsPath, s.fs, sub, listing);
    assert last == FinalRemoval(s.documentsPath, old(s.fs), sub, listing);
    ghost var purged := PurgeIfRemovable(s, sub, listing, contents);
    assert s.log == log1 + purged + last;
    assert log1 == old(s.log) + recorded;
    removals := recorded + purged;
    Regroup(old(s.log), recorded, purged, last);
    return Done, removals;
  }

  lemma Regroup(a: seq<Effect>, b: seq<Effect>, c: seq<Effect>, d: seq<Effect>)
    ensures a + b + c + d == a + (b + c) + d
  {
  }

  /** The checks `purgeFolder` makes before touching the disk, and the
      on-disk purge when `sub` passes them. */
  method PurgeIfRemovable(s: Storage, sub: string, listing: seq<string>, contents: seq<string>)
    returns (ghost purged: seq<Effect>)
    requires s.Valid()
    modifies s`cache, s`workspaces, s`fs, s`log
    ensures s.Valid()
    ensures s.State() == if Removable(s.documentsPath, old(s.fs), listing, sub)
                         then PurgedFolder(s.digest, old(s.State()), Resolve(s.documentsPath, sub).segs,
                                           FolderFilenames(sub, contents))
                         else old(s.State())
    ensures s.log == old(s.log) + purged + FinalRemoval(s.documentsPath, old(s.fs), sub, listing)
    ensures forall e :: e in purged ==> e.CachePurged? || e.AssociationsRemoved?
    ensures !Removable(s.documentsPath, old(s.fs), listing, sub) ==> purged == []
  {
    var subPath := Resolve(s.documentsPath, sub);
    if !Removable(s.documentsPath, s.fs, listing, sub) {
      return [];
    }
    IsWithinIffBelow(s.Root(), subPath);
    purged := PurgeFolderOnDisk(s, subPath.segs, FolderFilenames(sub, contents));
  }

  /** The on-disk part of `purgeFolder` for a folder at `dir` that passed
      the checks, with entries `filenames`: the cache entry of every entry,
      then every workspace's associations with them, then the subtree. */
  method PurgeFolderOnDisk(s: Storage, dir: seq<string>, filenames: seq<string>)
    returns (ghost removals: seq<Effect>)
    requires s.Valid() && s.documentsPath < dir && dir in s.fs
    modifies s`cache, s`workspaces, s`fs, s`log
    ensures s.Valid()
    ensures s.State() == PurgedFolder(s.digest, old(s.State()), dir, filenames)
    ensures s.log == old(s.log) + removals + [TreeRemoved(dir)]
    ensures forall e :: e in removals ==> e.CachePurged? || e.AssociationsRemoved?
  {
    ghost var st1 := s.State();
    ghost var log1 := s.log;
    ghost var purged: seq<Effect> := [];
    var i := 0;
    while i < |filenames|
      invariant 0 <= i <= |filenames|
      invariant s.Valid()
      invariant s.cache == st1.cache - Digests(s.digest, filenames[..i])
      invariant s.fs == st1.fs && s.workspaces == st1.workspaces
      invariant s.log == log1 + purged
      invariant forall e :: e in purged ==> e.CachePurged?
    {
      assert filenames[..i + 1] == filenames[..i] + [filenames[i]];
      ghost var d := s.digest(filenames[i]);
      ghost var had := d in s.cache;
      s.PurgeVectorCache(filenames[i]);
      purged := purged + if had && filenames[i] != "" then [CachePurged(d)] else [];
      i := i + 1;
    }
    assert filenames[..i] == filenames;
    ghost var removed := RemoveFromEveryWorkspace(s, set f | f in filenames);
    s.RemoveTree(dir);
    removals := purged + removed;
  }

  /** `purgeFolder` of a name normalizing to `custom-documents` changes no
      store: no folder record, file, cache entry or association. */
  lemma PurgeFolderKeepsCustomDocuments(documentsPath: seq<string>, digest: string -> string,
                                        st: Stores, folderName: string,
                                        listing: seq<string>, contents: seq<string>)
    ensures PurgeFolderSpec(documentsPath, digest, st, folderName, Ok(CustomDocuments),
                            listing, contents) == (Done, st)
  {
    assert CustomDocuments !in RemovableSubFolders(documentsPath, st.fs, listing);
  }

  /** A missing name changes nothing, and a name `normalizePath` rejects
      throws its error before any store changes. */
  lemma PurgeFolderGuards(documentsPath: seq<string>, digest: string -> string, st: Stores,
                          folderName: string, normalized: Result<string>,
                          listing: seq<string>, contents: seq<string>)
    ensures folderName == "" ==>
              PurgeFolderSpec(documentsPath, digest, st, folderName, normalized, listing, contents) == (Done, st)
    ensures folderName != "" && normalized.Err? ==>
              PurgeFolderSpec(documentsPath, digest, st, folderName, normalized, listing, contents) ==
              (Threw(normalized.message), st)
  {
  }

  /** For any other name the folder record goes whether or not the folder
      then passes the on-disk checks; when it does not pass them, the files,
      the cache and the associations are untouched. */
  lemma PurgeFolderDeletesRecordFirst(documentsPath: seq<string>, digest: string -> string,
                                      st: Stores, folderName: string, sub: string,
                                      listing: seq<string>, contents: seq<string>)
    requires folderName != ""
    ensures var (outcome, st') := PurgeFolderSpec(documentsPath, digest, st, folderName, Ok(sub),
                                                  listing, contents);
            outcome == Done &&
            (sub != CustomDocuments ==> st'.folderRecords == st.folderRecords - {sub}) &&
            (!Removable(documentsPath, st.fs, listing, sub) ==>
               st'.fs == st.fs && st'.cache == st.cache && st'.workspaces == st.workspaces)
  {
  }

  /** A folder that passes the checks is a directory directly below the
      root, named by the normalized name. */
  lemma {:induction false} RemovableIsTopLevelDirectory(documentsPath: seq<string>,
                                                        fs: map<seq<string>, Node>,
                                                        listing: seq<string>, sub: string)
    requires Resolved(documentsPath) && forall p :: p in fs ==> Resolved(p)
    requires Removable(documentsPath, fs, listing, sub)
    ensures Resolve(documentsPath, sub).segs == documentsPath + [sub]
    ensures fs[documentsPath + [sub]].Dir? && sub != CustomDocuments
  {
    var p := documentsPath + [sub];
    assert p in fs;
    assert IsName(p[|documentsPath|]);
    SplitWithoutSeparator(sub, '/');
    assert !StartsWith(sub, "/") by {
      assert sub[0] in sub;
    }
    assert Step(documentsPath, sub, false) == p;
    assert Fold(p, [], false) == p;
  }

  /** After an on-disk purge every entry's cache key is gone, every
      workspace has lost every entry's path and kept the rest, and the
      folder's subtree is gone while everything outside it stays. */
  lemma PurgedFolderRemovesEntries(documentsPath: seq<string>, digest: string -> string,
                                   st: Stores, sub: string, contents: seq<string>)
    ensures var dir := Resolve(documentsPath, sub).segs;
            var st' := PurgedFolder(digest, st, dir, FolderFilenames(sub, contents));
            (forall i :: 0 <= i < |contents| ==> digest(sub + "/" + contents[i]) !in st'.cache) &&
            (forall d :: d in st.cache && d !in Digests(digest, FolderFilenames(sub, contents)) ==>
               d in st'.cache && st'.cache[d] == st.cache[d]) &&
            st'.workspaces.Keys == st.workspaces.Keys &&
            (forall w, i :: w in st'.workspaces && 0 <= i < |contents| ==>
               sub + "/" + contents[i] !in st'.workspaces[w]) &&
            (forall w, f :: w in st.workspaces && f in st.workspaces[w] && f !in FolderFilenames(sub, contents) ==>
               f in st'.workspaces[w]) &&
            (forall p :: p in st'.fs <==> p in st.fs && !(dir <= p)) &&
            st'.folderRecords == st.folderRecords
  {
    var files := FolderFilenames(sub, contents);
    forall i | 0 <= i < |contents|
      ensures digest(sub + "/" + contents[i]) in Digests(digest, files)
      ensures sub + "/" + contents[i] in set f | f in files
    {
      assert files[i] == sub + "/" + contents[i];
    }
  }

}
