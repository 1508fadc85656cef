/**
 * The part of System.IO that the documentation generator relies on: a tree of
 * directories and files addressed by paths, with the Directory and File operations
 * that Program.cs calls. A path is the sequence of names from the root; the root
 * itself is the empty path.
 */
module FileSystem {

  type Name = string
  type Path = seq<Name>
  type Bytes = seq<bv8>

  /** `root` is `p` itself or one of its ancestors. */
  predicate Within(root: Path, p: Path) {
    |root| <= |p| && p[..|root|] == root
  }

  /** `p` lies strictly inside the directory `root`. */
  predicate StrictlyWithin(root: Path, p: Path) {
    |root| < |p| && p[..|root|] == root
  }

  /** Neither path lies inside the other, so work under one never touches the other. */
  predicate Separate(a: Path, b: Path) {
    !Within(a, b) && !Within(b, a)
  }

  function Parent(p: Path): Path
    requires p != []
  {
    p[..|p| - 1]
  }

  /** `p` and all of its ancestors, the root included. */
  function Prefixes(p: Path): set<Path> {
    set k | 0 <= k <= |p| :: p[..k]
  }

  /** The contents of the file system at one moment. */
  datatype Fs = Fs(files: map<Path, Bytes>, dirs: set<Path>)

  /** The root is a directory, nothing is both a file and a directory, and every entry sits in a directory. */
  ghost predicate WellFormed(fs: Fs) {
    && [] in fs.dirs
    && (forall p | p in fs.files :: p !in fs.dirs && p != [] && Parent(p) in fs.dirs)
    && (forall p | p in fs.dirs && p != [] :: Parent(p) in fs.dirs)
  }

  /** Directory.CreateDirectory fails when the path or one of its ancestors is an existing file. */
  predicate Obstructed(fs: Fs, p: Path) {
    exists k | 0 <= k <= |p| :: p[..k] in fs.files
  }

  /** The effect of a successful Directory.CreateDirectory: the directory and every missing ancestor. */
  function WithDirectory(fs: Fs, p: Path): Fs {
    fs.(dirs := fs.dirs + Prefixes(p))
  }

  /** A file can be written at `p` when its directory exists and no directory has that path. */
  predicate Writable(fs: Fs, p: Path) {
    p != [] && p !in fs.dirs && Parent(p) in fs.dirs
  }

  function WithFile(fs: Fs, p: Path, data: Bytes): Fs {
    fs.(files := fs.files[p := data])
  }

  /** Nothing lies inside the directory `p`. */
  predicate IsEmptyDirectory(fs: Fs, p: Path) {
    && (forall q | q in fs.files :: !StrictlyWithin(p, q))
    && (forall q | q in fs.dirs :: !StrictlyWithin(p, q))
  }

  /** The effect of a successful Directory.Delete: `p` and everything inside it are gone. */
  function Without(fs: Fs, p: Path): Fs {
    Fs(map q | q in fs.files && !Within(p, q) :: fs.files[q],
       set q | q in fs.dirs && !Within(p, q))
  }

  /** The names of the directories directly inside `p` (DirectoryInfo.GetDirectories). */
  function SubdirectoryNames(dirs: set<Path>, p: Path): set<Name> {
    set q | q in dirs && |q| == |p| + 1 && q[..|p|] == p :: q[|p|]
  }

  /** The names of the files directly inside `p` (DirectoryInfo.GetFiles). */
  function FileNames(files: map<Path, Bytes>, p: Path): set<Name> {
    set q | q in files && |q| == |p| + 1 && q[..|p|] == p :: q[|p|]
  }

  lemma FileNamesAt(files: map<Path, Bytes>, p: Path, n: Name)
    ensures n in FileNames(files, p) <==> p + [n] in files
  {
    if n in FileNames(files, p) {
      var q :| q in files && |q| == |p| + 1 && q[..|p|] == p && q[|p|] == n;
      assert q == p + [n];
    }
    assert (p + [n])[..|p|] == p;
  }

  lemma SubdirectoryNamesAt(dirs: set<Path>, p: Path, n: Name)
    ensures n in SubdirectoryNames(dirs, p) <==> p + [n] in dirs
  {
    if n in SubdirectoryNames(dirs, p) {
      var q :| q in dirs && |q| == |p| + 1 && q[..|p|] == p && q[|p|] == n;
      assert q == p + [n];
    }
    assert (p + [n])[..|p|] == p;
  }

  lemma {:induction false} AncestorsAreDirectories(fs: Fs, p: Path, k: nat)
    requires WellFormed(fs)
    requires p in fs.dirs || p in fs.files
    requires k < |p| || (k == |p| && p in fs.dirs)
    ensures p[..k] in fs.dirs
  {
    if k < |p| {
      var up := Parent(p);
      assert up in fs.dirs;
      AncestorsAreDirectories(fs, up, k);
      assert up[..k] == p[..k];
    } else {
      assert p[..k] == p;
    }
  }

  lemma ExistingDirectoryNotObstructed(fs: Fs, p: Path)
    requires WellFormed(fs) && p in fs.dirs
    ensures !Obstructed(fs, p)
  {
    forall k | 0 <= k <= |p| ensures p[..k] !in fs.files {
      AncestorsAreDirectories(fs, p, k);
    }
  }

  lemma CreateDirectoryKeepsWellFormed(fs: Fs, p: Path)
    requires WellFormed(fs) && !Obstructed(fs, p)
    ensures WellFormed(WithDirectory(fs, p))
  {
    var fs' := WithDirectory(fs, p);
    forall q | q in fs'.dirs && q != [] ensures Parent(q) in fs'.dirs {
      if q !in fs.dirs {
        var k :| 0 <= k <= |p| && q == p[..k];
        assert Parent(q) == p[..k - 1];
      }
    }
    forall q | q in fs'.files ensures q !in fs'.dirs {
      assert q !in Prefixes(p);
    }
  }

  /** Creating a directory that already exists changes nothing: SafeCreateDirectory is idempotent. */
  lemma CreateExistingDirectoryIsNoOp(fs: Fs, p: Path)
    requires WellFormed(fs) && p in fs.dirs
    ensures WithDirectory(fs, p) == fs
  {
    forall k | 0 <= k <= |p| ensures p[..k] in fs.dirs {
      AncestorsAreDirectories(fs, p, k);
    }
    assert Prefixes(p) <= fs.dirs;
  }

  lemma WriteKeepsWellFormed(fs: Fs, p: Path, data: Bytes)
    requires WellFormed(fs) && Writable(fs, p)
    ensures WellFormed(WithFile(fs, p, data))
  {
  }

  lemma DeleteKeepsWellFormed(fs: Fs, p: Path)
    requires WellFormed(fs) && p != []
    ensures WellFormed(Without(fs, p))
  {
    var fs' := Without(fs, p);
    forall q | q in fs'.dirs && q != [] ensures Parent(q) in fs'.dirs {
      assert !Within(p, Parent(q));
    }
    forall q | q in fs'.files ensures Parent(q) in fs'.dirs {
      assert !Within(p, Parent(q));
    }
  }

  /**
   * The file system as the program sees it. The .NET calls it makes become methods
   * whose contracts give the new contents in terms of the old.
   */
  class Disk {
    var files: map<Path, Bytes>
    var dirs: set<Path>

    function View(): Fs
      reads this
    {
      Fs(files, dirs)
    }

    ghost predicate Valid()
      reads this
    {
      WellFormed(View())
    }

    constructor (fs: Fs)
      requires WellFormed(fs)
      ensures Valid() && View() == fs
    {
      files, dirs := fs.files, fs.dirs;
    }

    /** Directory.CreateDirectory: creates the directory and its missing ancestors, or throws. */
    method CreateDirectory(p: Path) returns (ok: bool)
      requires Valid()
      modifies this
      ensures Valid()
      ensures ok == !Obstructed(old(View()), p)
      ensures View() == if ok then WithDirectory(old(View()), p) else old(View())
    {
      ok := !Obstructed(View(), p);
      if ok {
        CreateDirectoryKeepsWellFormed(View(), p);
        dirs := dirs + Prefixes(p);
      }
    }

    /** Writing a whole file, replacing any earlier one (FileInfo.CopyTo with overwrite, or saving a document). */
    method WriteFile(p: Path, data: Bytes) returns (ok: bool)
      requires Valid()
      modifies this
      ensures Valid()
      ensures ok == Writable(old(View()), p)
      ensures View() == if ok then WithFile(old(View()), p, data) else old(View())
    {
      ok := Writable(View(), p);
      if ok {
        WriteKeepsWellFormed(View(), p, data);
        files := files[p := data];
      }
    }

    /**
     * Directory.Delete(p, recursive): refuses a directory that is missing, the root, a non-empty
     * directory when not recursive, or one the host does not let go of (`permitted`).
     */
    method Delete(p: Path, recursive: bool, permitted: bool) returns (ok: bool)
      requires Valid()
      modifies this
      ensures Valid()
      ensures ok == (p in old(dirs) && p != [] && (recursive || IsEmptyDirectory(old(View()), p)) && permitted)
      ensures View() == if ok then Without(old(View()), p) else old(View())
    {
      ok := p in dirs && p != [] && (recursive || IsEmptyDirectory(View(), p)) && permitted;
      if ok {
        DeleteKeepsWellFormed(View(), p);
        var fs' := Without(View(), p);
        files, dirs := fs'.files, fs'.dirs;
      }
    }
  }
}
