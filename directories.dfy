/**
 * Program.SafeCreateDirectory and Program.CopyWholeDirectory (Program.cs:61-101).
 *
 * The copy is specified by `IsCopy`: every file below the source reappears at the same
 * relative path below the destination with the same contents, every directory below the
 * source reappears likewise, the destination and its ancestors exist, and nothing else
 * changes.
 */
module Directories {
  import opened FileSystem

  /** How CopyWholeDirectory ends: normally, with DirectoryNotFoundException, or with an IOException. */
  datatype CopyOutcome = Copied | SourceMissing | Collision

  /** SafeCreateDirectory: create the directory unless it already exists. */
  method SafeCreateDirectory(disk: Disk, p: Path) returns (ok: bool)
    requires disk.Valid()
    modifies disk
    ensures disk.Valid()
    ensures ok == !Obstructed(old(disk.View()), p)
    ensures ok ==> p in disk.dirs
    ensures disk.View() == if ok then WithDirectory(old(disk.View()), p) else old(disk.View())
    ensures p in old(disk.dirs) ==> disk.View() == old(disk.View())
  {
    if p !in disk.dirs {
      ok := disk.CreateDirectory(p);
      assert p == p[..|p|];
    } else {
      ExistingDirectoryNotObstructed(disk.View(), p);
      CreateExistingDirectoryIsNoOp(disk.View(), p);
      ok := true;
    }
  }

  /** After SafeCreateDirectory the directory exists, and a second call changes nothing. */
  lemma SafeCreateDirectoryIsIdempotent(fs: Fs, p: Path)
    requires WellFormed(fs) && !Obstructed(fs, p)
    ensures p in WithDirectory(fs, p).dirs
    ensures WellFormed(WithDirectory(fs, p))
    ensures WithDirectory(WithDirectory(fs, p), p) == WithDirectory(fs, p)
  {
    assert p == p[..|p|];
    CreateDirectoryKeepsWellFormed(fs, p);
  }

  /** The path that `p`, lying within `from`, takes when the tree at `from` is copied to `to`. */
  function Relocated(from: Path, to: Path, p: Path): Path
    requires Within(from, p)
  {
    to + p[|from|..]
  }

  lemma RelocatedBack(from: Path, to: Path, p: Path)
    requires Within(from, p)
    ensures Within(to, Relocated(from, to, p))
    ensures Relocated(to, from, Relocated(from, to, p)) == p
    ensures StrictlyWithin(from, p) <==> StrictlyWithin(to, Relocated(from, to, p))
    ensures StrictlyWithin(from, p) ==> Relocated(from, to, p)[|to|] == p[|from|]
  {
    var q := Relocated(from, to, p);
    assert q[..|to|] == to;
    assert q[|to|..] == p[|from|..];
    assert p == from + p[|from|..];
  }

  /** `q` lies strictly inside `dst` under one of the names in `heads`. */
  ghost predicate Picked(dst: Path, heads: set<Name>, q: Path) {
    StrictlyWithin(dst, q) && q[|dst|] in heads
  }

  /**
   * `out` is `fs` once the entries of `src` whose names are in `heads` have been copied
   * into `dst`: a path `q` below `dst` under such a name holds a copy of the file or
   * directory at the same place below `src`, the destination and its ancestors are
   * directories, and every other path is as it was.
   */
  ghost predicate IsPartialCopy(fs: Fs, src: Path, dst: Path, heads: set<Name>, out: Fs) {
    && (forall q {:trigger q in out.files} :: q in out.files <==>
          q in fs.files || (Picked(dst, heads, q) && Relocated(dst, src, q) in fs.files))
    && (forall q {:trigger out.files[q]} | q in out.files :: out.files[q] ==
          if Picked(dst, heads, q) && Relocated(dst, src, q) in fs.files
          then fs.files[Relocated(dst, src, q)] else fs.files[q])
    && (forall q {:trigger q in out.dirs} :: q in out.dirs <==>
          q in fs.dirs || Within(q, dst) || (Picked(dst, heads, q) && Relocated(dst, src, q) in fs.dirs))
  }

  /** The first names of everything below `src`. */
  ghost function Heads(fs: Fs, src: Path): set<Name> {
    set p | p in fs.files.Keys + fs.dirs && StrictlyWithin(src, p) :: p[|src|]
  }

  /** `out` is `fs` after the whole tree at `src` has been copied into `dst`. */
  ghost predicate IsCopy(fs: Fs, src: Path, dst: Path, out: Fs) {
    IsPartialCopy(fs, src, dst, Heads(fs, src), out)
  }

  /** No file of the copy lands on a directory and no directory on a file. */
  ghost predicate CopyFree(fs: Fs, src: Path, dst: Path) {
    && !Obstructed(fs, dst)
    && (forall p | p in fs.dirs && StrictlyWithin(src, p) :: Relocated(src, dst, p) !in fs.files)
    && (forall p | p in fs.files && StrictlyWithin(src, p) :: Relocated(src, dst, p) !in fs.dirs)
  }

  /** The two file systems hold the same entries below `root`. */
  ghost predicate AgreeInside(a: Fs, b: Fs, root: Path) {
    && (forall p | StrictlyWithin(root, p) :: p in a.files <==> p in b.files)
    && (forall p | StrictlyWithin(root, p) && p in a.files :: a.files[p] == b.files[p])
    && (forall p | StrictlyWithin(root, p) :: p in a.dirs <==> p in b.dirs)
  }

  /** Going from `before` to `after` wrote files only within `root` and only added directories within or above it. */
  ghost predicate Confined(before: Fs, after: Fs, root: Path) {
    && (forall p | p in before.files && !Within(root, p) :: p in after.files && after.files[p] == before.files[p])
    && (forall p | p in after.files && !Within(root, p) :: p in before.files)
    && before.dirs <= after.dirs
    && (forall p | p in after.dirs && p !in before.dirs :: Within(root, p) || Within(p, root))
  }

  /** The directories strictly inside `p`: the measure that shrinks down the recursion. */
  ghost function DirsInside(fs: Fs, p: Path): set<Path> {
    set q | q in fs.dirs && StrictlyWithin(p, q)
  }

  lemma PrefixesAreAncestors(p: Path, q: Path)
    ensures q in Prefixes(p) <==> Within(q, p)
  {
    if Within(q, p) {
      assert q == p[..|q|];
    }
  }

  lemma HeadsAt(fs: Fs, src: Path, p: Path)
    requires StrictlyWithin(src, p) && (p in fs.files || p in fs.dirs)
    ensures p[|src|] in Heads(fs, src)
  {
  }

  /** The names below `src` are exactly those of the files and subdirectories directly inside it. */
  lemma HeadsAreEntries(fs: Fs, src: Path)
    requires WellFormed(fs)
    ensures Heads(fs, src) == FileNames(fs.files, src) + SubdirectoryNames(fs.dirs, src)
  {
    forall h | h in Heads(fs, src) ensures h in FileNames(fs.files, src) + SubdirectoryNames(fs.dirs, src) {
      var p :| p in fs.files.Keys + fs.dirs && StrictlyWithin(src, p) && p[|src|] == h;
      var top := p[..|src| + 1];
      assert top == src + [h] && top[..|src|] == src;
      if |p| == |src| + 1 {
        assert top == p;
      } else {
        AncestorsAreDirectories(fs, p, |src| + 1);
      }
    }
    forall h | h in FileNames(fs.files, src) + SubdirectoryNames(fs.dirs, src) ensures h in Heads(fs, src) {
      if h in FileNames(fs.files, src) {
        var q :| q in fs.files && |q| == |src| + 1 && q[..|src|] == src && q[|src|] == h;
        HeadsAt(fs, src, q);
      } else {
        var q :| q in fs.dirs && |q| == |src| + 1 && q[..|src|] == src && q[|src|] == h;
        HeadsAt(fs, src, q);
      }
    }
  }

  lemma SameHeads(a: Fs, b: Fs, src: Path)
    requires AgreeInside(a, b, src)
    ensures Heads(a, src) == Heads(b, src)
  {
    forall h | h in Heads(a, src) ensures h in Heads(b, src) {
      var p :| p in a.files.Keys + a.dirs && StrictlyWithin(src, p) && p[|src|] == h;
      HeadsAt(b, src, p);
    }
    forall h | h in Heads(b, src) ensures h in Heads(a, src) {
      var p :| p in b.files.Keys + b.dirs && StrictlyWithin(src, p) && p[|src|] == h;
      HeadsAt(a, src, p);
    }
  }

  /** Before any entry is copied, only the destination and its ancestors have been created. */
  lemma NothingCopiedYet(fs: Fs, src: Path, dst: Path)
    ensures IsPartialCopy(fs, src, dst, {}, WithDirectory(fs, dst))
  {
    forall q ensures q in Prefixes(dst) <==> Within(q, dst) {
      PrefixesAreAncestors(dst, q);
    }
  }

  /** A partial copy leaves everything below a separate source exactly as it was. */
  lemma PartialCopyKeepsSource(fs: Fs, src: Path, dst: Path, heads: set<Name>, out: Fs)
    requires Separate(src, dst) && IsPartialCopy(fs, src, dst, heads, out)
    ensures AgreeInside(fs, out, src)
  {
    forall p | StrictlyWithin(src, p) ensures !Within(dst, p) && !Within(p, dst) {
    }
  }

  /** A partial copy writes files only below `dst` and creates directories only below or above it. */
  lemma PartialCopyConfined(fs: Fs, src: Path, dst: Path, heads: set<Name>, out: Fs)
    requires IsPartialCopy(fs, src, dst, heads, out)
    ensures Confined(fs, out, dst)
  {
  }

  /** Nothing lies below a file, so the only entry of `src` named `n` is the file itself. */
  lemma OnlyEntryNamed(fs: Fs, src: Path, n: Name, p: Path)
    requires WellFormed(fs) && src + [n] in fs.files
    requires StrictlyWithin(src, p) && p[|src|] == n && (p in fs.files || p in fs.dirs)
    ensures p == src + [n]
  {
    assert p[..|src| + 1] == src + [n];
    if |p| > |src| + 1 {
      AncestorsAreDirectories(fs, p, |src| + 1);
    }
  }

  lemma CopyFileStepAt(fs: Fs, src: Path, dst: Path, heads: set<Name>, n: Name, q: Path)
    requires WellFormed(fs) && src + [n] in fs.files
    ensures Picked(dst, heads + {n}, q) && Relocated(dst, src, q) in fs.files
      <==> (Picked(dst, heads, q) && Relocated(dst, src, q) in fs.files) || q == dst + [n]
    ensures q == dst + [n] ==> Relocated(dst, src, q) == src + [n]
    ensures Picked(dst, heads + {n}, q) && Relocated(dst, src, q) in fs.dirs
      <==> Picked(dst, heads, q) && Relocated(dst, src, q) in fs.dirs
  {
    if Within(dst, q) {
      var p := Relocated(dst, src, q);
      RelocatedBack(dst, src, q);
      if StrictlyWithin(src, p) && p[|src|] == n && (p in fs.files || p in fs.dirs) {
        OnlyEntryNamed(fs, src, n, p);
        assert q == Relocated(src, dst, p);
      }
    }
    if q == dst + [n] {
      assert q[..|dst|] == dst;
      assert q[|dst|..] == [n];
    }
  }

  /** Copying one more file directly inside `src` is one more file write. */
  lemma CopyFileStep(fs: Fs, src: Path, dst: Path, heads: set<Name>, n: Name, v: Fs)
    requires WellFormed(fs) && src + [n] in fs.files && IsPartialCopy(fs, src, dst, heads, v)
    ensures IsPartialCopy(fs, src, dst, heads + {n}, WithFile(v, dst + [n], fs.files[src + [n]]))
  {
    forall q {
      CopyFileStepAt(fs, src, dst, heads, n, q);
    }
  }

  lemma CopySubdirectoryStepAt(fs: Fs, src: Path, dst: Path, heads: set<Name>, n: Name, v: Fs, w: Fs, q: Path)
    requires WellFormed(fs) && Separate(src, dst) && src + [n] in fs.dirs && AgreeInside(fs, v, src)
    requires IsPartialCopy(fs, src, dst, heads, v) && IsCopy(v, src + [n], dst + [n], w)
    ensures q in w.files <==>
      q in fs.files || (Picked(dst, heads + {n}, q) && Relocated(dst, src, q) in fs.files)
    ensures q in w.files ==> w.files[q] == (if Picked(dst, heads + {n}, q) && Relocated(dst, src, q) in fs.files then fs.files[Relocated(dst, src, q)] else fs.files[q])
    ensures q in w.dirs <==>
      q in fs.dirs || Within(q, dst) || (Picked(dst, heads + {n}, q) && Relocated(dst, src, q) in fs.dirs)
  {
    var s', d' := src + [n], dst + [n];
    assert s'[..|src|] == src && d'[..|dst|] == dst;
    if Within(d', q) {
      assert q[..|dst|] == dst;
      var p := Relocated(d', s', q);
      assert p == Relocated(dst, src, q) by {
        assert q[|dst|..] == [n] + q[|d'|..];
      }
      RelocatedBack(d', s', q);
      assert p[..|src|] == p[..|s'|][..|src|];
      if StrictlyWithin(s', p) && (p in v.files || p in v.dirs) {
        HeadsAt(v, s', p);
      }
      if q == d' {
        assert p == s';
      }
    }
    if StrictlyWithin(dst, q) && q[|dst|] == n {
      assert q[..|d'|] == d';
      RelocatedBack(dst, src, q);
    }
    if Within(q, d') && q != d' {
      assert q == dst[..|q|];
    }
  }

  /** Copying a subdirectory into the matching subdirectory of `dst` completes the entries under that name. */
  lemma CopySubdirectoryStep(fs: Fs, src: Path, dst: Path, heads: set<Name>, n: Name, v: Fs, w: Fs)
    requires WellFormed(fs) && Separate(src, dst) && src + [n] in fs.dirs
    requires IsPartialCopy(fs, src, dst, heads, v) && IsCopy(v, src + [n], dst + [n], w)
    ensures IsPartialCopy(fs, src, dst, heads + {n}, w)
  {
    PartialCopyKeepsSource(fs, src, dst, heads, v);
    forall q
      ensures q in w.files <==>
        q in fs.files || (Picked(dst, heads + {n}, q) && Relocated(dst, src, q) in fs.files)
      ensures q in w.files ==> w.files[q] == (if Picked(dst, heads + {n}, q) && Relocated(dst, src, q) in fs.files then fs.files[Relocated(dst, src, q)] else fs.files[q])
      ensures q in w.dirs <==>
        q in fs.dirs || Within(q, dst) || (Picked(dst, heads + {n}, q) && Relocated(dst, src, q) in fs.dirs)
    {
      CopySubdirectoryStepAt(fs, src, dst, heads, n, v, w, q);
    }
  }

  /** A copy that stays clear of collisions can always write the next file. */
  lemma WritableIfFree(fs: Fs, src: Path, dst: Path, heads: set<Name>, n: Name, v: Fs)
    requires WellFormed(fs) && src + [n] in fs.files && IsPartialCopy(fs, src, dst, heads, v)
    ensures CopyFree(fs, src, dst) ==> Writable(v, dst + [n])
  {
    var f := src + [n];
    assert f[..|src|] == src;
    RelocatedBack(src, dst, f);
    assert Relocated(src, dst, f) == dst + [n];
    assert Parent(dst + [n]) == dst;
    assert dst == dst[..|dst|];
  }

  /** A copy that stays clear of collisions stays clear of them in each subdirectory. */
  lemma FreeForSubdirectory(fs: Fs, src: Path, dst: Path, heads: set<Name>, n: Name, v: Fs)
    requires WellFormed(fs) && Separate(src, dst) && src + [n] in fs.dirs
    requires IsPartialCopy(fs, src, dst, heads, v)
    ensures CopyFree(fs, src, dst) ==> CopyFree(v, src + [n], dst + [n])
  {
    if CopyFree(fs, src, dst) {
      var s', d' := src + [n], dst + [n];
      assert s'[..|src|] == src && d'[..|dst|] == dst;
      PartialCopyKeepsSource(fs, src, dst, heads, v);
      RelocatedBack(src, dst, s');
      assert Relocated(src, dst, s') == d';
      forall k | 0 <= k <= |d'| ensures d'[..k] !in v.files {
        if k <= |dst| {
          assert d'[..k] == dst[..k];
        } else {
          assert d'[..k] == d';
        }
      }
      forall p | StrictlyWithin(s', p)
        ensures StrictlyWithin(src, p) && Relocated(s', d', p) == Relocated(src, dst, p)
        ensures Relocated(dst, src, Relocated(src, dst, p)) == p && StrictlyWithin(dst, Relocated(src, dst, p))
      {
        assert p[..|src|] == p[..|s'|][..|src|];
        assert p[|src|..] == [n] + p[|s'|..];
        RelocatedBack(src, dst, p);
      }
    }
  }

  /** A copy whose result is well formed was free of collisions. */
  lemma WellFormedCopyWasFree(fs: Fs, src: Path, dst: Path, out: Fs)
    requires IsCopy(fs, src, dst, out) && WellFormed(out)
    ensures CopyFree(fs, src, dst)
  {
    forall k | 0 <= k <= |dst| ensures dst[..k] !in fs.files {
      var a := dst[..k];
      assert Within(a, dst);
      assert a in out.dirs;
      assert a in fs.files ==> a in out.files;
    }
    forall p | p in fs.dirs && StrictlyWithin(src, p) ensures Relocated(src, dst, p) !in fs.files {
      HeadsAt(fs, src, p);
      RelocatedBack(src, dst, p);
      var q := Relocated(src, dst, p);
      assert q in out.dirs;
      assert q in fs.files ==> q in out.files;
    }
    forall p | p in fs.files && StrictlyWithin(src, p) ensures Relocated(src, dst, p) !in fs.dirs {
      HeadsAt(fs, src, p);
      RelocatedBack(src, dst, p);
      var q := Relocated(src, dst, p);
      assert q in out.files;
      assert q in fs.dirs ==> q in out.dirs;
    }
  }

  /** Once every file and every subdirectory has been copied, the whole tree has. */
  lemma CopyFinished(fs: Fs, src: Path, dst: Path, heads: set<Name>, out: Fs)
    requires WellFormed(fs) && WellFormed(out)
    requires heads == FileNames(fs.files, src) + SubdirectoryNames(fs.dirs, src)
    requires IsPartialCopy(fs, src, dst, heads, out)
    ensures IsCopy(fs, src, dst, out) && CopyFree(fs, src, dst) && Confined(fs, out, dst)
  {
    HeadsAreEntries(fs, src);
    PartialCopyConfined(fs, src, dst, Heads(fs, src), out);
    WellFormedCopyWasFree(fs, src, dst, out);
  }

  lemma ConfinedWidens(a: Fs, b: Fs, c: Fs, root: Path, inner: Path)
    requires Confined(a, b, root) && Confined(b, c, inner) && Within(root, inner)
    ensures Confined(a, c, root)
  {
    forall p | Within(inner, p) ensures Within(root, p) {
      assert p[..|root|] == p[..|inner|][..|root|];
    }
    forall p | Within(p, inner) && !Within(p, root) ensures Within(root, p) {
      assert inner[..|root|] == root;
      assert inner[..|p|] == p;
      if |p| > |root| {
        assert p[..|root|] == root;
      }
    }
  }

  lemma SeparateChildren(src: Path, dst: Path, n: Name)
    requires Separate(src, dst)
    ensures Separate(src + [n], dst + [n])
  {
    assert forall k | 0 <= k <= |dst| :: (dst + [n])[..k] == dst[..k];
    assert forall k | 0 <= k <= |src| :: (src + [n])[..k] == src[..k];
  }

  lemma NarrowerBelow(fs: Fs, v: Fs, src: Path, n: Name)
    requires AgreeInside(fs, v, src) && src + [n] in fs.dirs
    ensures DirsInside(v, src + [n]) < DirsInside(fs, src)
  {
    var s' := src + [n];
    assert s'[..|src|] == src;
    forall q | q in DirsInside(v, s') ensures q in DirsInside(fs, src) {
      assert q[..|src|] == q[..|s'|][..|src|];
    }
    assert s' in DirsInside(fs, src) && s' !in DirsInside(v, s');
  }

  /** Everything below the source reaches the destination: files with their contents, and directories. */
  lemma CopyPlacesEverything(fs: Fs, src: Path, dst: Path, out: Fs, p: Path)
    requires IsCopy(fs, src, dst, out) && StrictlyWithin(src, p)
    ensures p in fs.files ==> Relocated(src, dst, p) in out.files && out.files[Relocated(src, dst, p)] == fs.files[p]
    ensures p in fs.dirs ==> Relocated(src, dst, p) in out.dirs
    ensures dst in out.dirs
  {
    if p in fs.files || p in fs.dirs {
      HeadsAt(fs, src, p);
      RelocatedBack(src, dst, p);
    }
    assert Within(dst, dst) by {
      assert dst[..|dst|] == dst;
    }
  }

  /** Outside the destination nothing changes, and inside it only copies of source entries appear. */
  lemma CopyAddsOnlyCopies(fs: Fs, src: Path, dst: Path, out: Fs, q: Path)
    requires IsCopy(fs, src, dst, out)
    ensures q in out.files && q !in fs.files ==>
      StrictlyWithin(dst, q) && Relocated(dst, src, q) in fs.files
    ensures !Within(dst, q) ==>
      (q in out.files <==> q in fs.files) && (q in out.files ==> out.files[q] == fs.files[q])
    ensures q in fs.dirs ==> q in out.dirs
  {
  }

  /** The copy relation is a function: a source tree and a destination determine the result. */
  lemma CopyIsDetermined(fs: Fs, src: Path, dst: Path, a: Fs, b: Fs)
    requires IsCopy(fs, src, dst, a) && IsCopy(fs, src, dst, b)
    ensures a == b
  {
    assert a.files.Keys == b.files.Keys;
    assert a.files == b.files;
    assert a.dirs == b.dirs;
  }

  /** Copying the same tree a second time changes nothing. */
  lemma CopyIsIdempotent(fs: Fs, src: Path, dst: Path, out: Fs)
    requires Separate(src, dst) && IsCopy(fs, src, dst, out)
    ensures IsCopy(out, src, dst, out)
  {
    PartialCopyKeepsSource(fs, src, dst, Heads(fs, src), out);
    SameHeads(fs, out, src);
    forall q | Picked(dst, Heads(fs, src), q)
      ensures StrictlyWithin(src, Relocated(dst, src, q))
    {
      RelocatedBack(dst, src, q);
    }
  }

  /** What one iteration of the file loop needs: the file to read, and the effect of writing its copy. */
  lemma NextFile(fs: Fs, src: Path, dst: Path, heads: set<Name>, n: Name, v: Fs)
    requires WellFormed(fs) && Separate(src, dst) && src + [n] in fs.files
    requires IsPartialCopy(fs, src, dst, heads, v)
    ensures src + [n] in v.files && v.files[src + [n]] == fs.files[src + [n]]
    ensures CopyFree(fs, src, dst) ==> Writable(v, dst + [n])
    ensures Confined(fs, v, dst)
    ensures IsPartialCopy(fs, src, dst, heads + {n}, WithFile(v, dst + [n], fs.files[src + [n]]))
  {
    PartialCopyKeepsSource(fs, src, dst, heads, v);
    assert (src + [n])[..|src|] == src;
    WritableIfFree(fs, src, dst, heads, n, v);
    PartialCopyConfined(fs, src, dst, heads, v);
    CopyFileStep(fs, src, dst, heads, n, v);
  }

  /** What one iteration of the subdirectory loop needs before its recursive call. */
  lemma NextSubdirectory(fs: Fs, src: Path, dst: Path, heads: set<Name>, n: Name, v: Fs)
    requires WellFormed(fs) && Separate(src, dst) && src + [n] in fs.dirs
    requires IsPartialCopy(fs, src, dst, heads, v)
    ensures src + [n] in v.dirs && Separate(src + [n], dst + [n])
    ensures DirsInside(v, src + [n]) < DirsInside(fs, src)
    ensures CopyFree(fs, src, dst) ==> CopyFree(v, src + [n], dst + [n])
    ensures Confined(fs, v, dst)
  {
    PartialCopyKeepsSource(fs, src, dst, heads, v);
    assert (src + [n])[..|src|] == src;
    SeparateChildren(src, dst, n);
    NarrowerBelow(fs, v, src, n);
    FreeForSubdirectory(fs, src, dst, heads, n, v);
    PartialCopyConfined(fs, src, dst, heads, v);
  }

  /** What one iteration of the subdirectory loop establishes after its recursive call. */
  lemma AfterSubdirectory(fs: Fs, src: Path, dst: Path, heads: set<Name>, n: Name, v: Fs, w: Fs, copied: bool)
    requires WellFormed(fs) && Separate(src, dst) && src + [n] in fs.dirs
    requires IsPartialCopy(fs, src, dst, heads, v)
    requires Confined(v, w, dst + [n]) && (copied ==> IsCopy(v, src + [n], dst + [n], w))
    ensures Confined(fs, w, dst)
    ensures copied ==> IsPartialCopy(fs, src, dst, heads + {n}, w)
  {
    PartialCopyConfined(fs, src, dst, heads, v);
    assert (dst + [n])[..|dst|] == dst;
    ConfinedWidens(fs, v, w, dst, dst + [n]);
    if copied {
      CopySubdirectoryStep(fs, src, dst, heads, n, v, w);
    }
  }

  /** The first loop of CopyWholeDirectory: copy every file directly inside `src` into `dst`, overwriting. */
  method CopyFiles(disk: Disk, src: Path, dst: Path, ghost fs: Fs) returns (ok: bool)
    requires disk.Valid() && WellFormed(fs) && Separate(src, dst)
    requires IsPartialCopy(fs, src, dst, {}, disk.View()) && disk.files == fs.files
    modifies disk
    ensures disk.Valid()
    ensures ok ==> IsPartialCopy(fs, src, dst, FileNames(fs.files, src), disk.View())
    ensures !ok ==> !CopyFree(fs, src, dst)
    ensures Confined(fs, disk.View(), dst)
  {
    PartialCopyKeepsSource(fs, src, dst, {}, disk.View());
    var names := FileNames(disk.files, src);
    var pending := names;
    assert names - pending == {};
    while pending != {}
      invariant pending <= names
      invariant disk.Valid()
      invariant IsPartialCopy(fs, src, dst, names - pending, disk.View())
      decreases pending
    {
      var n :| n in pending;
      ghost var v := disk.View();
      FileNamesAt(fs.files, src, n);
      NextFile(fs, src, dst, names - pending, n, v);
      ok := disk.WriteFile(dst + [n], disk.files[src + [n]]);
      if !ok {
        return;
      }
      assert (names - pending) + {n} == names - (pending - {n});
      pending := pending - {n};
    }
    assert names - pending == names;
    PartialCopyConfined(fs, src, dst, names, disk.View());
    ok := true;
  }

  /** The second loop of CopyWholeDirectory: copy every listed subdirectory of `src` into `dst`, recursively. */
  method CopySubdirectories(disk: Disk, src: Path, dst: Path, subdirs: set<Name>, ghost fs: Fs) returns (ok: bool)
    requires disk.Valid() && WellFormed(fs) && Separate(src, dst)
    requires subdirs == SubdirectoryNames(fs.dirs, src)
    requires IsPartialCopy(fs, src, dst, FileNames(fs.files, src), disk.View())
    modifies disk
    ensures disk.Valid()
    ensures ok ==> IsCopy(fs, src, dst, disk.View())
    ensures ok == CopyFree(fs, src, dst)
    ensures Confined(fs, disk.View(), dst)
    decreases DirsInside(fs, src), 0
  {
    ghost var names := FileNames(fs.files, src);
    var pending := subdirs;
    assert names + (subdirs - pending) == names;
    while pending != {}
      invariant pending <= subdirs
      invariant disk.Valid()
      invariant IsPartialCopy(fs, src, dst, names + (subdirs - pending), disk.View())
      decreases pending
    {
      var n :| n in pending;
      ghost var heads := names + (subdirs - pending);
      ghost var v := disk.View();
      SubdirectoryNamesAt(fs.dirs, src, n);
      NextSubdirectory(fs, src, dst, heads, n, v);
      var r := CopyWholeDirectory(disk, src + [n], dst + [n]);
      AfterSubdirectory(fs, src, dst, heads, n, v, disk.View(), r == Copied);
      if r != Copied {
        return false;
      }
      assert heads + {n} == names + (subdirs - (pending - {n}));
      pending := pending - {n};
    }
    assert subdirs - pending == subdirs;
    CopyFinished(fs, src, dst, names + subdirs, disk.View());
    ok := true;
  }

  /**
   * CopyWholeDirectory: fail if the source is missing, list its subdirectories, create
   * the destination if needed, copy every file (overwriting), then recurse into every
   * subdirectory.
   */
  method CopyWholeDirectory(disk: Disk, src: Path, dst: Path) returns (r: CopyOutcome)
    requires disk.Valid() && Separate(src, dst)
    modifies disk
    ensures disk.Valid()
    ensures (r == SourceMissing) == (src !in old(disk.dirs))
    ensures r == SourceMissing ==> disk.View() == old(disk.View())
    ensures r == Copied ==> IsCopy(old(disk.View()), src, dst, disk.View())
    ensures (r == Copied) == (src in old(disk.dirs) && CopyFree(old(disk.View()), src, dst))
    ensures Confined(old(disk.View()), disk.View(), dst)
    decreases DirsInside(disk.View(), src), 1
  {
    if src !in disk.dirs {
      return SourceMissing;
    }
    ghost var fs := disk.View();
    var subdirs := SubdirectoryNames(disk.dirs, src);
    var made := SafeCreateDirectory(disk, dst);
    if !made {
      return Collision;
    }
    NothingCopiedYet(fs, src, dst);
    var filesCopied := CopyFiles(disk, src, dst, fs);
    if !filesCopied {
      return Collision;
    }
    var subdirsCopied := CopySubdirectories(disk, src, dst, subdirs, fs);
    r := if subdirsCopied then Copied else Collision;
  }
}
