/** The file system as the engine sees it: a map from path to file, the
    directory walk as an input sequence, and the sibling archive folder that
    replaced files are moved into. */
module Disk {
  import opened Common
  import opened Text
  import opened Audio

  /** The archive folder, created next to the files it receives. */
  const ObsoleteDir := "-- OBSOLETE FILES"

  /** One step of `os.walk`: a directory and the names of the files in it. */
  datatype Folder = Folder(path: string, files: seq<string>)

  /** A file met during a walk: the directory it was listed in and its name. */
  datatype Listed = Listed(dir: string, name: string)

  function PathOf(e: Listed): string
  {
    Join(e.dir, e.name)
  }

  /** The files of one directory, in listing order. */
  function Row(f: Folder): (r: seq<Listed>)
    ensures |r| == |f.files|
    ensures forall k | 0 <= k < |r| :: r[k] == Listed(f.path, f.files[k])
  {
    seq(|f.files|, k requires 0 <= k < |f.files| => Listed(f.path, f.files[k]))
  }

  /** The files of a walk in the order it visits them. */
  function Listing(walk: seq<Folder>): seq<Listed>
    decreases |walk|
  {
    if walk == [] then [] else Listing(walk[..|walk| - 1]) + Row(walk[|walk| - 1])
  }

  lemma ListingStep(walk: seq<Folder>, i: int)
    requires 0 <= i < |walk|
    ensures Listing(walk[..i + 1]) == Listing(walk[..i]) + Row(walk[i])
  {
    assert walk[..i + 1][..i] == walk[..i];
  }

  lemma RowStep(f: Folder, j: int)
    requires 0 <= j < |f.files|
    ensures Row(f)[..j + 1] == Row(f)[..j] + [Listed(f.path, f.files[j])]
  {
  }

  /** No rows and all rows of a folder, after the rows already listed. */
  lemma RowEnds(es: seq<Listed>, f: Folder)
    ensures es + Row(f)[..0] == es
    ensures es + Row(f)[..|f.files|] == es + Row(f)
  {
    assert Row(f)[..|f.files|] == Row(f);
  }

  /** The same step after the rows already listed. */
  lemma RowStepAfter(es: seq<Listed>, f: Folder, j: int)
    requires 0 <= j < |f.files|
    ensures es + Row(f)[..j + 1] == (es + Row(f)[..j]) + [Listed(f.path, f.files[j])]
  {
    RowStep(f, j);
  }

  /** `shutil.move(src, dst)` / `os.rename(src, dst)` on POSIX: the entry
      leaves `src` and replaces whatever was at `dst`; nothing happens when
      `src` does not exist (the call raises). */
  function MoveEntry(files: map<string, Entry>, src: string, dst: string): (r: map<string, Entry>)
    ensures src in files ==> dst in r && r[dst] == files[src]
    ensures src in files ==> r.Keys == files.Keys - {src} + {dst}
    ensures forall k | k in files && k != src && k != dst :: k in r && r[k] == files[k]
    ensures src !in files ==> r == files
  {
    if src in files then (files - {src})[dst := files[src]] else files
  }

  /** Where a replaced file is archived: `-- OBSOLETE FILES` next to it,
      under its own name. */
  function ArchivePath(path: string): string
  {
    Join(Join(Dirname(path), ObsoleteDir), Basename(path))
  }

  lemma JoinEndsWith(a: string, b: string)
    requires b != [] && b[0] != '/'
    ensures EndsWith(Join(a, b), b)
    ensures |Join(a, b)| > 0 && Join(a, b)[|Join(a, b)| - 1] == b[|b| - 1]
  {
  }

  /** Joining a bare name onto any directory ends with that name. */
  lemma BasenameOfJoin(d: string, n: string)
    requires n != [] && '/' !in n
    ensures Basename(Join(d, n)) == n
  {
    assert n[0] in n;
    if d == "" {
      assert LastIndex(n, '/') == -1;
    } else if d[|d| - 1] == '/' {
      LastIndexAfter(d, '/', n);
      assert Join(d, n)[|d|..] == n;
    } else {
      LastIndexAfter(d + "/", '/', n);
      assert Join(d, n) == (d + "/") + n;
      assert Join(d, n)[|d| + 1..] == n;
    }
  }

  /** A file's archive slot is never the file itself. */
  lemma ArchiveElsewhere(path: string)
    ensures ArchivePath(path) != path
  {
    var d := Join(Dirname(path), ObsoleteDir);
    assert ObsoleteDir[0] == '-';
    JoinEndsWith(Dirname(path), ObsoleteDir);
    assert |d| > |Dirname(path)|;
    JoinSplit(d, Basename(path));
  }

  /** The archive slot of a file joined from a directory and a name: one
      component longer than the file. */
  lemma ArchiveOfJoin(d: string, n: string)
    requires '/' !in n && n != "" && d != "" && d[|d| - 1] != '/'
    ensures Dirname(Join(d, n)) == d && Basename(Join(d, n)) == n
    ensures ArchivePath(Join(d, n)) == Join(Join(d, ObsoleteDir), n)
    ensures |ArchivePath(Join(d, n))| == |Join(d, n)| + |ObsoleteDir| + 1
  {
    JoinSplit(d, n);
    assert n[0] in n;
    assert ObsoleteDir[0] == '-';
    JoinEndsWith(d, ObsoleteDir);
  }

  /** The archive copy keeps the file's name and sits in a directory called
      `-- OBSOLETE FILES`, which is what the pairing scan skips. */
  lemma ArchiveLocation(path: string)
    requires Basename(path) != ""
    ensures Basename(ArchivePath(path)) == Basename(path)
    ensures Dirname(ArchivePath(path)) == Join(Dirname(path), ObsoleteDir)
    ensures Basename(Dirname(ArchivePath(path))) == ObsoleteDir
  {
    var d := Join(Dirname(path), ObsoleteDir);
    assert ObsoleteDir[0] == '-';
    assert '/' !in ObsoleteDir;
    JoinEndsWith(Dirname(path), ObsoleteDir);
    JoinSplit(d, Basename(path));
    BasenameOfJoin(Dirname(path), ObsoleteDir);
  }

  /** A path written out as directory, slash and bare name splits back
      into those two parts. */
  lemma PathParts(p: string, d: string, n: string)
    requires '/' !in n && d != "" && d[|d| - 1] != '/'
    requires p == d + "/" + n
    ensures Dirname(p) == d && Basename(p) == n
  {
    assert p == Join(d, n);
    JoinSplit(d, n);
  }

  /** The disk: every regular file the engine can see, by path. Directories
      exist implicitly (`os.makedirs` has no effect in the model). */
  class FileSystem {
    var files: map<string, Entry>

    constructor (initial: map<string, Entry>)
      ensures files == initial
    {
      files := initial;
    }

    /** `os.path.isfile` / `os.path.exists`. */
    predicate Exists(path: string)
      reads this
    {
      path in files
    }

    /** `sf.read(path)`: the decoded recording, or `None` when reading raises. */
    function Read(path: string): (r: Option<Recording>)
      reads this
      ensures r.Some? <==> path in files && files[path].Audio?
      ensures r.Some? ==> files[path] == Audio(r.value)
    {
      if path in files && files[path].Audio? then Some(files[path].rec) else None
    }

    /** `sf.write(path, data, rate, subtype)`: creates or overwrites `path`. */
    method Write(path: string, r: Recording)
      modifies this
      ensures files == old(files)[path := Audio(r)]
    {
      files := files[path := Audio(r)];
    }

    /** `os.rename` / `shutil.move`; `ok` is false when the call raises
      because `src` does not exist. */
    method Move(src: string, dst: string) returns (ok: bool)
      modifies this
      ensures ok <==> src in old(files)
      ensures files == MoveEntry(old(files), src, dst)
    {
      ok := src in files;
      files := MoveEntry(files, src, dst);
    }
  }
}
