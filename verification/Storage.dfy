/** The artifact store: a directory tree kept outside the database. */
module Storage {
  import opened Records

  type Bytes = seq<bv8>

  /** A path as pathlib keeps it: `.` and empty parts are dropped when it is made, `..` is kept
      until it is resolved. Symbolic links are not modelled. */
  datatype Spelling = Path(absolute: bool, parts: seq<string>)
  type Path = p: Spelling | "." !in p.parts && "" !in p.parts witness Path(true, [])

  /** Where a resolved path lies in the tree. */
  type Location = seq<string>

  function WithoutDots(parts: seq<string>): (r: seq<string>)
    ensures "." !in r && "" !in r
    ensures forall x | x != "." && x != "" :: x in r <==> x in parts
    ensures "." !in parts && "" !in parts ==> r == parts
  {
    if parts == [] then []
    else if parts[0] == "." || parts[0] == "" then WithoutDots(parts[1..])
    else [parts[0]] + WithoutDots(parts[1..])
  }

  function MakePath(absolute: bool, parts: seq<string>): Path {
    Path(absolute, WithoutDots(parts))
  }

  function Join(base: Path, path: Path): Path {
    if path.absolute then path else Path(base.absolute, base.parts + path.parts)
  }

  /** Lets `..` remove the part before it. */
  function Normal(parts: seq<string>): Location {
    if parts == [] then []
    else
      var front, last := Normal(parts[..|parts| - 1]), parts[|parts| - 1];
      if last != ".." then front + [last]
      else if front == [] then []
      else front[..|front| - 1]
  }

  function Resolve(cwd: Location, path: Path): Location {
    Normal(if path.absolute then path.parts else cwd + path.parts)
  }

  /** `root in location.parents`, comparing spellings: the location is absolute and resolved, so
      a root that is not can never be found among its parents. */
  predicate Inside(root: Spelling, location: Location) {
    root.absolute && |root.parts| < |location| && root.parts == location[..|root.parts|]
  }

  lemma {:induction false} PlainIsNormal(base: seq<string>, parts: seq<string>)
    requires ".." !in parts
    ensures Normal(base + parts) == Normal(base) + parts
  {
    if parts == [] {
      assert base + parts == base;
    } else {
      var front := parts[..|parts| - 1];
      PlainIsNormal(base, front);
      assert (base + parts)[..|base + parts| - 1] == base + front;
      assert parts == front + [parts[|parts| - 1]];
    }
  }

  lemma {:induction false} NormalIsPlain(parts: seq<string>)
    ensures ".." !in Normal(parts)
  {
    if parts != [] {
      NormalIsPlain(parts[..|parts| - 1]);
    }
  }

  /** A path that is absolute is taken as it is; any other starts where its base leads. */
  lemma WherePathsLead(cwd: Location, base: Path, path: Path)
    ensures path.absolute ==> Resolve(cwd, Join(base, path)) == Normal(path.parts)
    ensures !path.absolute && base.absolute ==> Resolve(cwd, Join(base, path)) == Normal(base.parts + path.parts)
    ensures !path.absolute && !base.absolute ==>
              Resolve(cwd, Join(base, path)) == Normal(cwd + base.parts + path.parts)
  {
    assert cwd + (base.parts + path.parts) == cwd + base.parts + path.parts;
  }

  /** Going down and up again leads nowhere, and there is nothing above the top. */
  lemma UpUndoesDown(parts: seq<string>, down: string)
    requires down != ".."
    ensures Normal(parts + [down, ".."]) == Normal(parts)
    ensures Normal([".."] + parts) == Normal(parts)
  {
    assert (parts + [down, ".."])[..|parts| + 1] == parts + [down];
    assert (parts + [down])[..|parts|] == parts;
    UpAtTop(parts);
  }

  lemma {:induction false} UpAtTop(parts: seq<string>)
    ensures Normal([".."] + parts) == Normal(parts)
  {
    if parts == [] {
      assert [".."] + parts == [".."] && [".."][..0] == [];
    } else {
      UpAtTop(parts[..|parts| - 1]);
      assert ([".."] + parts)[..|parts|] == [".."] + parts[..|parts| - 1];
    }
  }

  /** The root is an absolute path without `..`. */
  predicate ResolvedRoot(root: Path) {
    root.absolute && ".." !in root.parts
  }

  /** Cleanup recognises a stored relative path as its own exactly when the root is spelled in
      resolved form; with any other spelling it visits the file and leaves it. */
  lemma CleanupNeedsResolvedRoot(cwd: Location, root: Path, stored: Path)
    requires !stored.absolute && ".." !in stored.parts && stored.parts != []
    ensures ResolvedRoot(root) ==> Resolve(cwd, Join(root, stored)) == root.parts + stored.parts
    ensures Inside(root, Resolve(cwd, Join(root, stored))) <==> ResolvedRoot(root)
  {
    if root.absolute {
      PlainIsNormal(root.parts, stored.parts);
      if ".." !in root.parts {
        PlainIsNormal([], root.parts);
        assert [] + root.parts == root.parts;
        assert (root.parts + stored.parts)[..|root.parts|] == root.parts;
      }
      NormalIsPlain(root.parts + stored.parts);
    }
  }

  /** Dots in the configured root do no harm, and `..` does: `/a/./b` is resolved, `/a/../b` is not. */
  lemma DotsInTheRoot(parts: seq<string>)
    ensures ResolvedRoot(MakePath(true, parts)) <==> ".." !in parts
  {
    KeepsUp(parts);
  }

  lemma {:induction false} KeepsUp(parts: seq<string>)
    ensures ".." in WithoutDots(parts) <==> ".." in parts
  {
    if parts != [] {
      KeepsUp(parts[1..]);
    }
  }

  // ---------- sizes ----------

  ghost function Total(files: map<Location, Bytes>): nat {
    if files == map[] then 0
    else
      var f :| f in files;
      |files[f]| + Total(files - {f})
  }

  lemma {:induction false} TotalWithout(files: map<Location, Bytes>, f: Location)
    requires f in files
    ensures Total(files) == |files[f]| + Total(files - {f})
    decreases |files|
  {
    var g :| g in files && Total(files) == |files[g]| + Total(files - {g});
    if f != g {
      TotalWithout(files - {g}, f);
      TotalWithout(files - {f}, g);
      assert files - {g} - {f} == files - {f} - {g};
    }
  }

  // ---------- the store ----------

  datatype UploadHandle = UploadHandle(artifactId: Id, declaredSize: nat, path: Location, temporary: Location)

  datatype Report = Report(deletedFiles: nat, deletedBytes: nat, missingFiles: nat)

  /** How the chunks end: with the request complete, with an exception because the client has gone,
      or with the cancellation of the coroutine that reads them. */
  datatype Ending = Complete | ClientGone | TaskCancelled

  datatype Written = Stored(ref: ArtifactRef) | WrongSize | Disconnected | Cancelled

  function Concat(chunks: seq<Bytes>): Bytes {
    if chunks == [] then [] else Concat(chunks[..|chunks| - 1]) + chunks[|chunks| - 1]
  }

  lemma {:induction false} ConcatPrefix(chunks: seq<Bytes>, i: nat)
    requires i <= |chunks|
    ensures |Concat(chunks[..i])| <= |Concat(chunks)|
    decreases |chunks| - i
  {
    if i < |chunks| {
      ConcatPrefix(chunks, i + 1);
      assert chunks[..i + 1][..i] == chunks[..i];
    } else {
      assert chunks[..i] == chunks;
    }
  }

  /** The locations below the root that a list of paths names. */
  ghost function OwnLocations(root: Path, cwd: Location, paths: seq<Path>): set<Location> {
    set p | p in paths && Inside(root, Resolve(cwd, p)) :: Resolve(cwd, p)
  }

  /** Nothing is there: neither a directory, nor a file that was there at first and has not been
      deleted on the way. */
  ghost predicate Gone(root: Path, cwd: Location, files: map<Location, Bytes>, directories: set<Location>,
                       before: seq<Path>, path: Path) {
    var location := Resolve(cwd, path);
    location !in directories && (location !in files || location in OwnLocations(root, cwd, before))
  }

  /** How many of the first `n` paths lead to nothing when their turn comes. */
  ghost function MissingAmong(root: Path, cwd: Location, files: map<Location, Bytes>, directories: set<Location>,
                              paths: seq<Path>, n: nat): nat
    requires n <= |paths|
  {
    if n == 0 then 0
    else
      MissingAmong(root, cwd, files, directories, paths, n - 1)
      + if Gone(root, cwd, files, directories, paths[..n - 1], paths[n - 1]) then 1 else 0
  }

  lemma OwnLocationsNext(root: Path, cwd: Location, paths: seq<Path>, i: nat)
    requires i < |paths|
    ensures OwnLocations(root, cwd, paths[..i + 1])
         == OwnLocations(root, cwd, paths[..i])
            + if Inside(root, Resolve(cwd, paths[i])) then {Resolve(cwd, paths[i])} else {}
  {
  }

  lemma MinusTwice<K, V>(m: map<K, V>, a: set<K>, b: set<K>)
    ensures m - a - b == m - (a + b)
  {
  }

  lemma MinusAbsent<K, V>(m: map<K, V>, a: set<K>)
    requires m.Keys !! a
    ensures m - a == m
  {
  }

  /** What is left after one more visit, and whether it finds anything. */
  lemma OneVisitLeaves(root: Path, cwd: Location, files: map<Location, Bytes>, directories: set<Location>,
                       paths: seq<Path>, n: nat)
    requires n < |paths|
    ensures var location := Resolve(cwd, paths[n]); var left := files - OwnLocations(root, cwd, paths[..n]);
            && files - OwnLocations(root, cwd, paths[..n + 1])
               == left - (if Inside(root, location) then {location} else {})
            && MissingAmong(root, cwd, files, directories, paths, n + 1)
               == MissingAmong(root, cwd, files, directories, paths, n)
                  + if location in left || location in directories then 0 else 1
  {
    OwnLocationsNext(root, cwd, paths, n);
    MinusTwice(files, OwnLocations(root, cwd, paths[..n]),
               if Inside(root, Resolve(cwd, paths[n])) then {Resolve(cwd, paths[n])} else {});
  }

  /** The state of the store and of the report after the first `n` visits. */
  ghost predicate Visited(root: Path, cwd: Location, files: map<Location, Bytes>, directories: set<Location>,
                          paths: seq<Path>, n: nat, left: map<Location, Bytes>, report: Report)
    requires n <= |paths|
  {
    && left == files - OwnLocations(root, cwd, paths[..n])
    && report.deletedFiles == |files| - |left|
    && report.deletedBytes == Total(files) - Total(left)
    && report.missingFiles == MissingAmong(root, cwd, files, directories, paths, n)
    && report.deletedFiles + report.missingFiles <= n
  }

  lemma OneVisitMore(root: Path, cwd: Location, files: map<Location, Bytes>, directories: set<Location>,
                     paths: seq<Path>, n: nat, left: map<Location, Bytes>, report: Report,
                     left': map<Location, Bytes>, report': Report)
    requires n < |paths| && Visited(root, cwd, files, directories, paths, n, left, report)
    requires left' == left - if Inside(root, Resolve(cwd, paths[n])) then {Resolve(cwd, paths[n])} else {}
    requires report'.deletedFiles - report.deletedFiles == |left| - |left'|
    requires report'.deletedBytes - report.deletedBytes == Total(left) - Total(left')
    requires report'.missingFiles == report.missingFiles
               + if Resolve(cwd, paths[n]) in left || Resolve(cwd, paths[n]) in directories then 0 else 1
    requires report'.deletedFiles + report'.missingFiles <= report.deletedFiles + report.missingFiles + 1
    ensures Visited(root, cwd, files, directories, paths, n + 1, left', report')
  {
    OneVisitLeaves(root, cwd, files, directories, paths, n);
  }

  lemma NothingVisited(root: Path, cwd: Location, files: map<Location, Bytes>, directories: set<Location>,
                       paths: seq<Path>)
    ensures Visited(root, cwd, files, directories, paths, 0, files, Report(0, 0, 0))
  {
    MinusAbsent(files, OwnLocations(root, cwd, paths[..0]));
  }

  lemma FileRemoved(files: map<Location, Bytes>, f: Location)
    requires f in files
    ensures |files - {f}| == |files| - 1 && Total(files - {f}) == Total(files) - |files[f]|
  {
    TotalWithout(files, f);
    assert files.Keys == (files - {f}).Keys + {f};
  }

  class ArtifactStore {
    const root: Path
    const cwd: Location
    var files: map<Location, Bytes>
    var directories: set<Location>

    constructor (root: Path, cwd: Location)
      ensures this.root == root && this.cwd == cwd && files == map[] && directories == {}
    {
      this.root, this.cwd := root, cwd;
      files, directories := map[], {};
    }

    /** Streams an upload into a temporary file and renames it into place. Either the whole
        declared content appears under its final name, or nothing of it is left anywhere; no
        other file is touched. A cancellation is no `Exception`: it skips the clean-up and leaves
        what has arrived under the temporary name. */
    method WriteStream(handle: UploadHandle, chunks: seq<Bytes>, ending: Ending, sha256: Bytes -> string)
      returns (r: Written)
      requires handle.path != handle.temporary
      modifies this`files
      ensures r.Stored? <==> ending.Complete? && |Concat(chunks)| == handle.declaredSize
      ensures r.Disconnected? <==> ending.ClientGone? && |Concat(chunks)| <= handle.declaredSize
      ensures r.Cancelled? <==> ending.TaskCancelled? && |Concat(chunks)| <= handle.declaredSize
      ensures r.Stored? ==>
                && files == (old(files) - {handle.temporary})[handle.path := Concat(chunks)]
                && r.ref == ArtifactRef(Some(handle.artifactId), Some(|Concat(chunks)|), Some(sha256(Concat(chunks))))
      ensures r.Cancelled? ==> files == old(files)[handle.temporary := Concat(chunks)]
      ensures r.WrongSize? || r.Disconnected? ==> files == old(files) - {handle.temporary, handle.path}
    {
      var size := 0;
      var hashed: Bytes := [];
      files := files[handle.temporary := []];
      var i := 0;
      while i < |chunks|
        invariant 0 <= i <= |chunks|
        invariant hashed == Concat(chunks[..i]) && size == |hashed| <= handle.declaredSize
        invariant files == old(files)[handle.temporary := hashed]
      {
        var chunk := chunks[i];
        assert chunks[..i + 1][..i] == chunks[..i];
        i := i + 1;
        if chunk == [] {
          continue;
        }
        size := size + |chunk|;
        if size > handle.declaredSize {
          ConcatPrefix(chunks, i);
          files := files - {handle.temporary, handle.path};
          return WrongSize;
        }
        hashed := hashed + chunk;
        files := files[handle.temporary := files[handle.temporary] + chunk];
      }
      assert chunks[..i] == chunks;
      if ending.TaskCancelled? {
        return Cancelled;
      }
      if ending.ClientGone? {
        files := files - {handle.temporary, handle.path};
        return Disconnected;
      }
      if size != handle.declaredSize {
        files := files - {handle.temporary, handle.path};
        return WrongSize;
      }
      files := (files - {handle.temporary})[handle.path := files[handle.temporary]];
      return Stored(ArtifactRef(Some(handle.artifactId), Some(size), Some(sha256(hashed))));
    }

    /** One listed path: counted as missing, left alone, or unlinked and counted. */
    method Visit(path: Path, before: Report) returns (report: Report)
      modifies this`files
      ensures files == old(files) - if Inside(root, Resolve(cwd, path)) then {Resolve(cwd, path)} else {}
      ensures report.deletedFiles - before.deletedFiles == |old(files)| - |files|
      ensures report.deletedBytes - before.deletedBytes == Total(old(files)) - Total(files)
      ensures report.missingFiles == before.missingFiles
                + if Resolve(cwd, path) in old(files) || Resolve(cwd, path) in directories then 0 else 1
      ensures report.deletedFiles + report.missingFiles <= before.deletedFiles + before.missingFiles + 1
    {
      var location := Resolve(cwd, path);
      if location !in files && location !in directories {
        MinusAbsent(files, if Inside(root, location) then {location} else {});
        return before.(missingFiles := before.missingFiles + 1);
      }
      if location !in files || !Inside(root, location) {
        MinusAbsent(files, if Inside(root, location) then {location} else {});
        return before;
      }
      var size := |files[location]|;
      FileRemoved(files, location);
      files := files - {location};
      return before.(deletedFiles := before.deletedFiles + 1, deletedBytes := before.deletedBytes + size);
    }

    /** Unlinks the listed files that exist below the root. What is gone, and how many bytes, is
        accounted for exactly; a file listed twice is deleted once and missing once. */
    method DeleteExpired(paths: seq<Path>) returns (report: Report)
      modifies this`files
      ensures files == old(files) - OwnLocations(root, cwd, paths)
      ensures report.deletedFiles == |old(files)| - |files|
      ensures report.deletedBytes == Total(old(files)) - Total(files)
      ensures report.missingFiles == MissingAmong(root, cwd, old(files), directories, paths, |paths|)
      ensures report.deletedFiles + report.missingFiles <= |paths|
    {
      report := Report(0, 0, 0);
      NothingVisited(root, cwd, files, directories, paths);
      var i := 0;
      while i < |paths|
        invariant 0 <= i <= |paths|
        invariant Visited(root, cwd, old(files), directories, paths, i, files, report)
      {
        ghost var left, soFar := files, report;
        report := Visit(paths[i], report);
        OneVisitMore(root, cwd, old(files), directories, paths, i, left, soFar, files, report);
        i := i + 1;
      }
      assert paths[..i] == paths;
    }

    /** Removes one stored path, with the root resolved before the comparison. */
    method RemoveRelative(relative: Path)
      modifies this`files
      ensures var location := Resolve(cwd, Join(root, relative));
              files == if Inside(Path(true, Resolve(cwd, root)), location) then old(files) - {location} else old(files)
    {
      var location := Resolve(cwd, Join(root, relative));
      if !Inside(Path(true, Resolve(cwd, root)), location) || location !in files {
        return;
      }
      files := files - {location};
    }
  }
}
