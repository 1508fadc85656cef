/**
 * The generation loop of Program.Main (Program.cs:256-294). Every subdirectory `c` of the
 * intermediate directory is one documented class; its output directory receives a page per
 * XML file of `c/nodes`, the class page when `c/nodes` exists, and a copy of `c/img`.
 *
 * The state of the output tree at each point of the loop is described by a Stage: the
 * classes already finished and how far the current class has got. Assembled relates a
 * file system to the tree the loop started from and a stage, path by path; each step of
 * the loop is a lemma that moves from one stage to the next.
 */
module Assembly {
  import opened Wrappers
  import opened FileSystem
  import opened Directories
  import opened Transform

  /** Where the loop reads and writes, the two stylesheets it applies, and the processor. */
  datatype Site = Site(input: Path, output: Path, classXsl: Path, nodeXsl: Path, engine: Engine)

  /** A name that the "*.xml" pattern of Directory.EnumerateFiles lists. */
  predicate IsXmlName(n: Name) {
    |n| >= 4 && n[|n| - 4..] == ".xml"
  }

  predicate IsPageName(m: Name) {
    |m| >= 5 && m[|m| - 5..] == ".html"
  }

  /** Path.GetFileNameWithoutExtension(n) + ".html": the page that node file `n` becomes. */
  function PageName(n: Name): (m: Name)
    requires IsXmlName(n)
    ensures IsPageName(m) && m[..|m| - 5] == n[..|n| - 4]
  {
    n[..|n| - 4] + ".html"
  }

  /** The node file that page `m` is made from. */
  function SourceName(m: Name): Name
    requires IsPageName(m)
  {
    m[..|m| - 5] + ".xml"
  }

  /** Each node file has a page of its own: SourceName undoes PageName. */
  lemma PageNameRoundTrip(n: Name)
    requires IsXmlName(n)
    ensures IsPageName(PageName(n)) && SourceName(PageName(n)) == n
  {
    var m := PageName(n);
    assert m[..|m| - 5] == n[..|n| - 4];
    assert n == n[..|n| - 4] + ".xml";
  }

  /** Each page comes from one node file: PageName undoes SourceName. */
  lemma SourceNameRoundTrip(m: Name)
    requires IsPageName(m)
    ensures IsXmlName(SourceName(m)) && PageName(SourceName(m)) == m
  {
    var n := SourceName(m);
    assert n[..|n| - 4] == m[..|m| - 5];
    assert m == m[..|m| - 5] + ".html";
  }

  /** A class page is never called "nodes" or "img", so it cannot collide with those directories. */
  lemma ClassPageIsNoDirectoryName(c: Name)
    ensures c + ".html" != "nodes" && c + ".html" != "img"
  {
    var m := c + ".html";
    assert m[|m| - 1] == 'l';
  }

  /** Directory.EnumerateFiles(dir, "*.xml", TopDirectoryOnly): the XML files directly in `dir`. */
  function XmlFileNames(files: map<Path, Bytes>, dir: Path): set<Name> {
    set n | n in FileNames(files, dir) && IsXmlName(n)
  }

  lemma XmlFileNamesAt(files: map<Path, Bytes>, dir: Path, n: Name)
    ensures n in XmlFileNames(files, dir) <==> dir + [n] in files && IsXmlName(n)
  {
    FileNamesAt(files, dir, n);
  }

  /** The intermediate directory of class `c`. */
  function ClassInput(site: Site, c: Name): Path {
    site.input + [c]
  }

  /** The output directory of class `c`. */
  function ClassOutput(site: Site, c: Name): Path {
    site.output + [c]
  }

  function NodesInput(site: Site, c: Name): Path {
    ClassInput(site, c) + ["nodes"]
  }

  function NodesOutput(site: Site, c: Name): Path {
    ClassOutput(site, c) + ["nodes"]
  }

  lemma ClassOutputPath(site: Site, c: Name, r: Path)
    ensures var q := ClassOutput(site, c) + r;
      StrictlyWithin(site.output, q) && q[|site.output|] == c && q[|site.output| + 1..] == r
  {
    var q := ClassOutput(site, c) + r;
    assert q[..|site.output|] == site.output;
  }

  lemma ClassOutputSplit(site: Site, q: Path)
    requires StrictlyWithin(site.output, q)
    ensures q == ClassOutput(site, q[|site.output|]) + q[|site.output| + 1..]
  {
  }

  /** How far the loop has got with one class. */
  datatype Progress = Progress(nodesDir: bool, nodesDone: set<Name>, paged: bool, imaged: bool)

  /** The class directory has just been created. */
  const Begun := Progress(false, {}, false, false)

  /** The loop is in the middle of the class `current`, or between classes. */
  datatype Stage = Stage(done: set<Name>, current: Option<(Name, Progress)>)

  /** The class has a `nodes` directory, so the loop makes its node pages and class page. */
  ghost predicate HasNodes(start: Fs, site: Site, c: Name) {
    NodesInput(site, c) in start.dirs
  }

  /** The progress of a class once the loop is done with it. */
  ghost function Finished(start: Fs, site: Site, c: Name): Progress {
    if HasNodes(start, site, c) then Progress(true, XmlFileNames(start.files, NodesInput(site, c)), true, true)
    else Progress(false, {}, false, true)
  }

  /** The file expected at `r` below the output directory of class `c`, once the loop has got as far as `pr`. */
  ghost function ClassFile(start: Fs, site: Site, c: Name, pr: Progress, r: Path): Option<Bytes> {
    if |r| == 2 && r[0] == "nodes" && IsPageName(r[1]) && SourceName(r[1]) in pr.nodesDone then
      Rendered(start, site.engine, site.nodeXsl, NodesInput(site, c) + [SourceName(r[1])])
    else if r == [c + ".html"] && pr.paged then
      Rendered(start, site.engine, site.classXsl, ClassInput(site, c) + [c + ".xml"])
    else if |r| >= 2 && r[0] == "img" && pr.imaged && ClassInput(site, c) + r in start.files then
      Some(start.files[ClassInput(site, c) + r])
    else
      None
  }

  /** Whether a directory is expected at `r` below the output directory of class `c`. */
  ghost predicate ClassDirectory(start: Fs, site: Site, c: Name, pr: Progress, r: Path) {
    || r == []
    || (pr.nodesDir && r == ["nodes"])
    || (pr.imaged && |r| >= 1 && r[0] == "img" && ClassInput(site, c) + r in start.dirs)
  }

  ghost function ProgressOf(start: Fs, site: Site, st: Stage, c: Name): Option<Progress> {
    if c in st.done then Some(Finished(start, site, c))
    else if st.current.Some? && st.current.value.0 == c then Some(st.current.value.1)
    else None
  }

  ghost predicate Started(st: Stage) {
    st.done != {} || st.current.Some?
  }

  /** The file expected at `q`: the loop's output inside the output directory, the original tree elsewhere. */
  ghost function ExpectedFile(start: Fs, site: Site, st: Stage, q: Path): Option<Bytes> {
    if StrictlyWithin(site.output, q) then
      match ProgressOf(start, site, st, q[|site.output|])
      case None => None
      case Some(pr) => ClassFile(start, site, q[|site.output|], pr, q[|site.output| + 1..])
    else if q in start.files then Some(start.files[q])
    else None
  }

  /** Whether a directory is expected at `q`; the first class directory created brings the output directory with it. */
  ghost predicate ExpectedDirectory(start: Fs, site: Site, st: Stage, q: Path) {
    if StrictlyWithin(site.output, q) then
      match ProgressOf(start, site, st, q[|site.output|])
      case None => false
      case Some(pr) => ClassDirectory(start, site, q[|site.output|], pr, q[|site.output| + 1..])
    else q in start.dirs || (Started(st) && Within(q, site.output))
  }

  /** `fs` holds exactly what the loop has produced by stage `st`, having started from `start`. */
  ghost predicate Assembled(start: Fs, site: Site, st: Stage, fs: Fs) {
    && (forall q {:trigger q in fs.files} :: q in fs.files <==> ExpectedFile(start, site, st, q).Some?)
    && (forall q {:trigger fs.files[q]} | q in fs.files :: Some(fs.files[q]) == ExpectedFile(start, site, st, q))
    && (forall q {:trigger q in fs.dirs} :: q in fs.dirs <==> ExpectedDirectory(start, site, st, q))
  }

  /** The loop starts on a well-formed tree whose output directory was removed, away from its input. */
  ghost predicate Ready(start: Fs, site: Site) {
    && WellFormed(start)
    && Separate(site.input, site.output)
    && site.output !in start.dirs
    && (forall q | StrictlyWithin(site.output, q) :: q !in start.files && q !in start.dirs)
  }

  /** Before the first class, the file system is the one the loop starts from. */
  lemma NothingAssembledYet(start: Fs, site: Site)
    requires Ready(start, site)
    ensures Assembled(start, site, Stage({}, None), start)
  {
  }

  /** Paths within the intermediate directory lie outside the output directory and above none of it. */
  lemma InputIsNotOutput(site: Site, q: Path)
    requires Separate(site.input, site.output) && Within(site.input, q)
    ensures !Within(site.output, q) && !Within(q, site.output)
  {
    var i, o := site.input, site.output;
    assert |o| <= |i| ==> q[..|o|] == q[..|i|][..|o|];
    assert |i| <= |o| <= |q| ==> q[..|i|] == q[..|o|][..|i|];
    assert |q| <= |o| ==> o[..|i|] == o[..|q|][..|i|];
  }

  /** Outside the output directory, an assembled file system holds the files it started with. */
  lemma AssembledOutside(start: Fs, site: Site, st: Stage, fs: Fs, q: Path)
    requires Assembled(start, site, st, fs) && !StrictlyWithin(site.output, q)
    ensures q in fs.files <==> q in start.files
    ensures q in fs.files ==> fs.files[q] == start.files[q]
    ensures !Within(q, site.output) ==> (q in fs.dirs <==> q in start.dirs)
  {
  }

  /**
   * Whatever stage the loop has reached, it has changed nothing outside the output directory:
   * every other file is as it was, and the only directories it added are the output
   * directory, its ancestors and what lies below it.
   */
  lemma AssembledConfined(start: Fs, site: Site, st: Stage, fs: Fs)
    requires Ready(start, site) && Assembled(start, site, st, fs)
    ensures Confined(start, fs, site.output)
  {
    forall q | q in start.dirs ensures q in fs.dirs {
      assert !StrictlyWithin(site.output, q);
    }
  }

  /** Reading an input of the loop gives what the starting tree holds. */
  lemma RenderedFromStart(start: Fs, site: Site, st: Stage, fs: Fs, xsl: Path, p: Path)
    requires Ready(start, site) && Assembled(start, site, st, fs) && Within(site.input, p)
    ensures Rendered(fs, site.engine, xsl, p) == Rendered(start, site.engine, xsl, p)
  {
    InputIsNotOutput(site, p);
    assert !StrictlyWithin(site.output, p);
    AssembledOutside(start, site, st, fs, p);
  }

  /** Creating the output directory of the next class fails exactly when a file blocks the output directory. */
  lemma ClassCreated(start: Fs, site: Site, done: set<Name>, c: Name, v: Fs)
    requires Ready(start, site) && c !in done
    requires Assembled(start, site, Stage(done, None), v)
    ensures Obstructed(v, ClassOutput(site, c)) <==> Obstructed(start, site.output)
    ensures Assembled(start, site, Stage(done, Some((c, Begun))), WithDirectory(v, ClassOutput(site, c)))
  {
    var o := ClassOutput(site, c);
    var st, st' := Stage(done, None), Stage(done, Some((c, Begun)));
    forall q
      ensures ExpectedFile(start, site, st', q) == ExpectedFile(start, site, st, q)
      ensures ExpectedDirectory(start, site, st', q) <==> ExpectedDirectory(start, site, st, q) || q in Prefixes(o)
    {
      PrefixesAreAncestors(o, q);
      if StrictlyWithin(site.output, q) && q[|site.output|] == c {
        ClassOutputSplit(site, q);
      }
    }
    ClassOutputPath(site, c, []);
    assert o[..|o|] == o;
    forall k | 0 <= k <= |site.output|
      ensures o[..k] == site.output[..k] && !StrictlyWithin(site.output, o[..k])
    {
    }
    if Obstructed(start, site.output) {
      var k :| 0 <= k <= |site.output| && site.output[..k] in start.files;
      AssembledOutside(start, site, st, v, o[..k]);
    }
    if Obstructed(v, o) {
      var k :| 0 <= k <= |o| && o[..k] in v.files;
      AssembledOutside(start, site, st, v, o[..k]);
    }
  }

  /** Creating the `nodes` directory of the current class always succeeds: its class directory exists. */
  lemma NodesCreated(start: Fs, site: Site, done: set<Name>, c: Name, v: Fs)
    requires Ready(start, site) && c !in done && WellFormed(v)
    requires Assembled(start, site, Stage(done, Some((c, Begun))), v)
    ensures !Obstructed(v, NodesOutput(site, c))
    ensures Assembled(start, site, Stage(done, Some((c, Progress(true, {}, false, false)))),
                      WithDirectory(v, NodesOutput(site, c)))
  {
    var o, n := ClassOutput(site, c), NodesOutput(site, c);
    var st, st' := Stage(done, Some((c, Begun))), Stage(done, Some((c, Progress(true, {}, false, false))));
    ClassOutputPath(site, c, []);
    ClassOutputPath(site, c, ["nodes"]);
    assert o == o + [];
    assert o in v.dirs && n !in v.files;
    ExistingDirectoryNotObstructed(v, o);
    assert n[..|n|] == n;
    forall k | 0 <= k < |n| ensures n[..k] == o[..k] {}
    forall q
      ensures ExpectedFile(start, site, st', q) == ExpectedFile(start, site, st, q)
      ensures ExpectedDirectory(start, site, st', q) <==> ExpectedDirectory(start, site, st, q) || q == n
      ensures q in Prefixes(n) ==> q in v.dirs || q == n
    {
      PrefixesAreAncestors(n, q);
      if StrictlyWithin(site.output, q) && q[|site.output|] == c {
        ClassOutputSplit(site, q);
      }
      if q in Prefixes(n) && q != n {
        AncestorsAreDirectories(v, o, |q|);
      }
    }
  }

  /** Within a class, recording node `n` as done changes what is expected only at its page. */
  lemma NodePageIn(start: Fs, site: Site, c: Name, nodes: set<Name>, n: Name, r: Path)
    requires IsXmlName(n) && r != ["nodes", PageName(n)]
    ensures ClassFile(start, site, c, Progress(true, nodes + {n}, false, false), r)
         == ClassFile(start, site, c, Progress(true, nodes, false, false), r)
  {
    if |r| == 2 && r[0] == "nodes" && IsPageName(r[1]) {
      SourceNameRoundTrip(r[1]);
      assert r == ["nodes", r[1]];
    }
  }

  /** Recording node `n` as done changes what is expected only at its page. */
  lemma NodePageAt(start: Fs, site: Site, done: set<Name>, c: Name, nodes: set<Name>, n: Name, q: Path)
    requires IsXmlName(n) && c !in done
    ensures var st := Stage(done, Some((c, Progress(true, nodes, false, false))));
      var st' := Stage(done, Some((c, Progress(true, nodes + {n}, false, false))));
      && ExpectedDirectory(start, site, st', q) == ExpectedDirectory(start, site, st, q)
      && (q != NodesOutput(site, c) + [PageName(n)] ==> ExpectedFile(start, site, st', q) == ExpectedFile(start, site, st, q))
  {
    if StrictlyWithin(site.output, q) && q[|site.output|] == c && q != NodesOutput(site, c) + [PageName(n)] {
      var r := q[|site.output| + 1..];
      ClassOutputSplit(site, q);
      assert NodesOutput(site, c) + [PageName(n)] == ClassOutput(site, c) + ["nodes", PageName(n)];
      NodePageIn(start, site, c, nodes, n, r);
    }
  }

  /** Where the page of node file `n` goes: below the output directory, in the class's `nodes` directory. */
  lemma NodePagePath(site: Site, c: Name, n: Name)
    requires IsXmlName(n)
    ensures var t := NodesOutput(site, c) + [PageName(n)];
      && Within(site.input, NodesInput(site, c) + [n])
      && t == ClassOutput(site, c) + ["nodes", PageName(n)]
      && StrictlyWithin(site.output, t) && t[|site.output|] == c && t[|site.output| + 1..] == ["nodes", PageName(n)]
      && StrictlyWithin(site.output, Parent(t)) && Parent(t)[|site.output|] == c
      && Parent(t)[|site.output| + 1..] == ["nodes"] && t != [] && Parent(t) == NodesOutput(site, c)
      && IsPageName(PageName(n)) && SourceName(PageName(n)) == n
  {
    var input := NodesInput(site, c) + [n];
    var t := NodesOutput(site, c) + [PageName(n)];
    PageNameRoundTrip(n);
    assert input[..|site.input|] == site.input;
    assert t == ClassOutput(site, c) + ["nodes", PageName(n)];
    ClassOutputPath(site, c, ["nodes", PageName(n)]);
    ClassOutputPath(site, c, ["nodes"]);
  }

  /** Transforming one more node file of the current class: its page appears exactly when the transform succeeds. */
  lemma NodePage(start: Fs, site: Site, done: set<Name>, c: Name, nodes: set<Name>, n: Name, v: Fs)
    requires Ready(start, site) && c !in done && WellFormed(v)
    requires Assembled(start, site, Stage(done, Some((c, Progress(true, nodes, false, false)))), v)
    requires n in XmlFileNames(start.files, NodesInput(site, c)) && n !in nodes
    ensures var input := NodesInput(site, c) + [n];
      var (res, w) := Transformation(v, site.engine, site.nodeXsl, input, NodesOutput(site, c) + [PageName(n)]);
      && res != Unsaved
      && (res == Transformed <==> Rendered(start, site.engine, site.nodeXsl, input).Some?)
      && WellFormed(w)
      && Assembled(start, site, Stage(done, Some((c, Progress(true, nodes + {n}, false, false)))), w)
  {
    var input := NodesInput(site, c) + [n];
    var t := NodesOutput(site, c) + [PageName(n)];
    var st := Stage(done, Some((c, Progress(true, nodes, false, false))));
    var st' := Stage(done, Some((c, Progress(true, nodes + {n}, false, false))));
    NodePageFree(start, site, done, c, nodes, n, v);
    TransformationWritesOnlyOutput(v, site.engine, site.nodeXsl, input, t);
    forall q
      ensures ExpectedDirectory(start, site, st', q) == ExpectedDirectory(start, site, st, q)
      ensures q != t ==> ExpectedFile(start, site, st', q) == ExpectedFile(start, site, st, q)
    {
      NodePageAt(start, site, done, c, nodes, n, q);
    }
    Recorded(start, site, st, st', t, v, Transformation(v, site.engine, site.nodeXsl, input, t).1);
  }

  /**
   * Moving from stage `st` to `st'` changes what is expected only at path `t`; a tree that
   * differs from an assembled one only at `t`, and holds there what `st'` expects, is assembled
   * for `st'`.
   */
  lemma Recorded(start: Fs, site: Site, st: Stage, st': Stage, t: Path, v: Fs, w: Fs)
    requires Assembled(start, site, st, v)
    requires forall q :: ExpectedDirectory(start, site, st', q) == ExpectedDirectory(start, site, st, q)
    requires forall q | q != t :: ExpectedFile(start, site, st', q) == ExpectedFile(start, site, st, q)
    requires w.dirs == v.dirs
    requires forall q | q != t :: (q in w.files <==> q in v.files) && (q in v.files ==> w.files[q] == v.files[q])
    requires t in w.files <==> ExpectedFile(start, site, st', t).Some?
    requires t in w.files ==> Some(w.files[t]) == ExpectedFile(start, site, st', t)
    ensures Assembled(start, site, st', w)
  {
  }

  /** Before its transform, the page of node file `n` is not yet written, can be written, and is expected to hold the rendering. */
  lemma NodePageFree(start: Fs, site: Site, done: set<Name>, c: Name, nodes: set<Name>, n: Name, v: Fs)
    requires Ready(start, site) && c !in done && WellFormed(v)
    requires Assembled(start, site, Stage(done, Some((c, Progress(true, nodes, false, false)))), v)
    requires n in XmlFileNames(start.files, NodesInput(site, c)) && n !in nodes
    ensures var input, t := NodesInput(site, c) + [n], NodesOutput(site, c) + [PageName(n)];
      && t !in v.files && Writable(v, t)
      && Rendered(v, site.engine, site.nodeXsl, input) == Rendered(start, site.engine, site.nodeXsl, input)
      && ExpectedFile(start, site, Stage(done, Some((c, Progress(true, nodes + {n}, false, false)))), t) == Rendered(start, site.engine, site.nodeXsl, input)
  {
    var input := NodesInput(site, c) + [n];
    XmlFileNamesAt(start.files, NodesInput(site, c), n);
    NodePagePath(site, c, n);
    RenderedFromStart(start, site, Stage(done, Some((c, Progress(true, nodes, false, false)))), v, site.nodeXsl, input);
  }

  /** Recording the class page as written changes what is expected only at that page. */
  lemma ClassPageAt(start: Fs, site: Site, done: set<Name>, c: Name, nodes: set<Name>, q: Path)
    requires c !in done
    ensures var st := Stage(done, Some((c, Progress(true, nodes, false, false))));
      var st' := Stage(done, Some((c, Progress(true, nodes, true, false))));
      && ExpectedDirectory(start, site, st', q) == ExpectedDirectory(start, site, st, q)
      && (q != ClassOutput(site, c) + [c + ".html"] ==> ExpectedFile(start, site, st', q) == ExpectedFile(start, site, st, q))
  {
    if StrictlyWithin(site.output, q) && q[|site.output|] == c {
      ClassOutputSplit(site, q);
    }
  }

  /** Transforming the class file: the class page appears exactly when the transform succeeds. */
  lemma ClassPage(start: Fs, site: Site, done: set<Name>, c: Name, nodes: set<Name>, v: Fs)
    requires Ready(start, site) && c !in done && WellFormed(v)
    requires Assembled(start, site, Stage(done, Some((c, Progress(true, nodes, false, false)))), v)
    ensures var input := ClassInput(site, c) + [c + ".xml"];
      var (res, w) := Transformation(v, site.engine, site.classXsl, input, ClassOutput(site, c) + [c + ".html"]);
      && res != Unsaved
      && (res == Transformed <==> Rendered(start, site.engine, site.classXsl, input).Some?)
      && WellFormed(w)
      && Assembled(start, site, Stage(done, Some((c, Progress(true, nodes, true, false)))), w)
  {
    var input := ClassInput(site, c) + [c + ".xml"];
    var t := ClassOutput(site, c) + [c + ".html"];
    var st := Stage(done, Some((c, Progress(true, nodes, false, false))));
    var st' := Stage(done, Some((c, Progress(true, nodes, true, false))));
    assert input[..|site.input|] == site.input;
    RenderedFromStart(start, site, st, v, site.classXsl, input);
    ClassOutputPath(site, c, [c + ".html"]);
    ClassOutputPath(site, c, []);
    ClassPageIsNoDirectoryName(c);
    assert ClassOutput(site, c) + [] == ClassOutput(site, c) == Parent(t);
    assert t !in v.files && Writable(v, t);
    assert ExpectedFile(start, site, st', t) == Rendered(start, site.engine, site.classXsl, input);
    TransformationWritesOnlyOutput(v, site.engine, site.classXsl, input, t);
    forall q
      ensures ExpectedDirectory(start, site, st', q) == ExpectedDirectory(start, site, st, q)
      ensures q != t ==> ExpectedFile(start, site, st', q) == ExpectedFile(start, site, st, q)
    {
      ClassPageAt(start, site, done, c, nodes, q);
    }
    Recorded(start, site, st, st', t, v, Transformation(v, site.engine, site.classXsl, input, t).1);
  }

  function ImagesInput(site: Site, c: Name): Path {
    ClassInput(site, c) + ["img"]
  }

  function ImagesOutput(site: Site, c: Name): Path {
    ClassOutput(site, c) + ["img"]
  }

  /** The images of a class are copied between separate directories. */
  lemma ImagesSeparate(site: Site, c: Name)
    requires Separate(site.input, site.output)
    ensures Separate(ImagesInput(site, c), ImagesOutput(site, c))
  {
    var src, dst := ImagesInput(site, c), ImagesOutput(site, c);
    assert src[..|site.input|] == site.input;
    InputIsNotOutput(site, src);
    assert dst[..|site.output|] == site.output;
    assert |src| <= |site.output| ==> dst[..|src|] == site.output[..|src|];
    assert |dst| <= |src| ==> src[..|site.output|] == src[..|dst|][..|site.output|];
  }

  /** Below the image directory of a class that has not copied its images, nothing is expected yet. */
  lemma NoImagesYet(start: Fs, site: Site, done: set<Name>, c: Name, pr: Progress, q: Path)
    requires c !in done && !pr.imaged && Within(ImagesOutput(site, c), q)
    ensures ExpectedFile(start, site, Stage(done, Some((c, pr))), q) == None
    ensures StrictlyWithin(ImagesOutput(site, c), q) ==> !ExpectedDirectory(start, site, Stage(done, Some((c, pr))), q)
  {
    var o := ImagesOutput(site, c);
    assert o[..|site.output|] == site.output;
    assert q[..|site.output|] == o[..|site.output|];
    ClassOutputSplit(site, q);
    assert q[|site.output| + 1] == o[|site.output| + 1];
    ClassPageIsNoDirectoryName(c);
  }

  /** Copying the images of the current class cannot collide with anything, and its source is as the loop found it. */
  lemma ImagesFree(start: Fs, site: Site, done: set<Name>, c: Name, pr: Progress, v: Fs)
    requires Ready(start, site) && c !in done && WellFormed(v) && !pr.imaged
    requires Assembled(start, site, Stage(done, Some((c, pr))), v)
    ensures Separate(ImagesInput(site, c), ImagesOutput(site, c))
    ensures CopyFree(v, ImagesInput(site, c), ImagesOutput(site, c))
    ensures ImagesInput(site, c) in v.dirs <==> ImagesInput(site, c) in start.dirs
  {
    var src, dst, o := ImagesInput(site, c), ImagesOutput(site, c), ClassOutput(site, c);
    var st := Stage(done, Some((c, pr)));
    ImagesSeparate(site, c);
    assert src[..|site.input|] == site.input;
    InputIsNotOutput(site, src);
    ClassOutputPath(site, c, []);
    assert o + [] == o;
    ExistingDirectoryNotObstructed(v, o);
    assert dst[..|dst|] == dst;
    forall k | 0 <= k < |dst| ensures dst[..k] == o[..k] {}
    assert dst[..|dst|][..|site.output|] == site.output;
    NoImagesYet(start, site, done, c, pr, dst);
    forall p | StrictlyWithin(src, p)
      ensures Relocated(src, dst, p) !in v.files && Relocated(src, dst, p) !in v.dirs
    {
      RelocatedBack(src, dst, p);
      NoImagesYet(start, site, done, c, pr, Relocated(src, dst, p));
    }
  }

  /** A path below the output directory of class `c` lies in its image directory exactly when it starts with "img". */
  lemma ImagesOutputAt(site: Site, c: Name, r: Path)
    ensures |r| >= 1 && r[0] == "img" <==> Within(ImagesOutput(site, c), ClassOutput(site, c) + r)
  {
    var q, dst := ClassOutput(site, c) + r, ImagesOutput(site, c);
    assert |dst| == |site.output| + 2 && dst[|site.output| + 1] == "img";
    if |r| >= 1 {
      assert q[|site.output| + 1] == r[0];
      assert q[..|dst|] == ClassOutput(site, c) + [r[0]];
    }
  }

  /** A path below the output image directory of class `c`, and the path of the image it copies. */
  lemma ImagePaths(site: Site, c: Name, q: Path)
    requires Separate(site.input, site.output) && StrictlyWithin(ImagesOutput(site, c), q)
    ensures var r, p := q[|site.output| + 1..], Relocated(ImagesOutput(site, c), ImagesInput(site, c), q);
      && StrictlyWithin(site.output, q) && q[|site.output|] == c
      && |r| >= 2 && r[0] == "img"
      && p == ClassInput(site, c) + r
      && StrictlyWithin(ImagesInput(site, c), p)
      && q == Relocated(ImagesInput(site, c), ImagesOutput(site, c), p)
      && !Within(site.output, p) && !Within(p, site.output)
  {
    var src, dst, o := ImagesInput(site, c), ImagesOutput(site, c), site.output;
    var p := Relocated(dst, src, q);
    RelocatedBack(dst, src, q);
    assert dst[..|o|] == o && q[..|o|] == dst[..|o|];
    ClassOutputSplit(site, q);
    assert q[|o|] == dst[|o|] == c && q[|o| + 1] == dst[|o| + 1] == "img";
    var r := q[|o| + 1..];
    assert r == ["img"] + q[|dst|..];
    assert p == ClassInput(site, c) + r;
    assert p[..|site.input|] == site.input;
    InputIsNotOutput(site, p);
  }

  /** Below the image directory, the copy holds what the intermediate image directory holds. */
  lemma ImagesCopiedInside(start: Fs, site: Site, done: set<Name>, c: Name, pr: Progress, v: Fs, w: Fs, q: Path)
    requires Ready(start, site) && c !in done && !pr.imaged
    requires Assembled(start, site, Stage(done, Some((c, pr))), v)
    requires IsCopy(v, ImagesInput(site, c), ImagesOutput(site, c), w)
    requires StrictlyWithin(ImagesOutput(site, c), q)
    ensures var st' := Stage(done, Some((c, pr.(imaged := true))));
      && (q in w.files <==> ExpectedFile(start, site, st', q).Some?)
      && (q in w.files ==> Some(w.files[q]) == ExpectedFile(start, site, st', q))
      && (q in w.dirs <==> ExpectedDirectory(start, site, st', q))
  {
    var src, dst := ImagesInput(site, c), ImagesOutput(site, c);
    var p := Relocated(dst, src, q);
    ImagePaths(site, c, q);
    ImagesExpectedInside(start, site, done, c, pr, q);
    NoImagesYet(start, site, done, c, pr, q);
    AssembledOutside(start, site, Stage(done, Some((c, pr))), v, p);
    if p in v.files || p in v.dirs {
      HeadsAt(v, src, p);
    }
  }

  /** Once the images are recorded as copied, below the output image directory the intermediate images are expected. */
  lemma ImagesExpectedInside(start: Fs, site: Site, done: set<Name>, c: Name, pr: Progress, q: Path)
    requires Separate(site.input, site.output) && c !in done && StrictlyWithin(ImagesOutput(site, c), q)
    ensures var p, st' := Relocated(ImagesOutput(site, c), ImagesInput(site, c), q), Stage(done, Some((c, pr.(imaged := true))));
      && ExpectedFile(start, site, st', q) == (if p in start.files then Some(start.files[p]) else None)
      && (ExpectedDirectory(start, site, st', q) <==> p in start.dirs)
  {
    ImagePaths(site, c, q);
  }

  /** Recording the images as copied changes nothing that is expected outside the image directory. */
  lemma ImagesStageElsewhere(start: Fs, site: Site, done: set<Name>, c: Name, pr: Progress, q: Path)
    requires c !in done && !Within(ImagesOutput(site, c), q)
    ensures var st, st' := Stage(done, Some((c, pr))), Stage(done, Some((c, pr.(imaged := true))));
      && ExpectedFile(start, site, st', q) == ExpectedFile(start, site, st, q)
      && ExpectedDirectory(start, site, st', q) == ExpectedDirectory(start, site, st, q)
  {
    if StrictlyWithin(site.output, q) && q[|site.output|] == c {
      ClassOutputSplit(site, q);
      ImagesOutputAt(site, c, q[|site.output| + 1..]);
    }
  }

  /** Outside the image directory, the copy adds only the directories leading to it. */
  lemma ImagesCopiedOutside(start: Fs, site: Site, done: set<Name>, c: Name, pr: Progress, v: Fs, w: Fs, q: Path)
    requires Ready(start, site) && c !in done && WellFormed(v) && !pr.imaged
    requires Assembled(start, site, Stage(done, Some((c, pr))), v)
    requires ImagesInput(site, c) in start.dirs
    requires IsCopy(v, ImagesInput(site, c), ImagesOutput(site, c), w)
    requires !StrictlyWithin(ImagesOutput(site, c), q)
    ensures var st' := Stage(done, Some((c, pr.(imaged := true))));
      && (q in w.files <==> ExpectedFile(start, site, st', q).Some?)
      && (q in w.files ==> Some(w.files[q]) == ExpectedFile(start, site, st', q))
      && (q in w.dirs <==> ExpectedDirectory(start, site, st', q))
  {
    var src, dst, o := ImagesInput(site, c), ImagesOutput(site, c), ClassOutput(site, c);
    var st := Stage(done, Some((c, pr)));
    var st' := Stage(done, Some((c, pr.(imaged := true))));
    if q == dst {
      ClassOutputPath(site, c, ["img"]);
      ClassPageIsNoDirectoryName(c);
      assert q[..|q|] == q;
    } else {
      ImagesStageElsewhere(start, site, done, c, pr, q);
      if Within(q, dst) {
        ClassOutputPath(site, c, []);
        assert o + [] == o && o in v.dirs;
        assert q == o[..|q|];
        AncestorsAreDirectories(v, o, |q|);
      }
    }
  }

  /** Copying the images of the current class yields the stage where they are copied. */
  lemma ImagesCopied(start: Fs, site: Site, done: set<Name>, c: Name, pr: Progress, v: Fs, w: Fs)
    requires Ready(start, site) && c !in done && WellFormed(v) && !pr.imaged
    requires Assembled(start, site, Stage(done, Some((c, pr))), v)
    requires ImagesInput(site, c) in start.dirs
    requires IsCopy(v, ImagesInput(site, c), ImagesOutput(site, c), w)
    ensures Assembled(start, site, Stage(done, Some((c, pr.(imaged := true)))), w)
  {
    var st' := Stage(done, Some((c, pr.(imaged := true))));
    forall q
      ensures q in w.files <==> ExpectedFile(start, site, st', q).Some?
      ensures q in w.files ==> Some(w.files[q]) == ExpectedFile(start, site, st', q)
      ensures q in w.dirs <==> ExpectedDirectory(start, site, st', q)
    {
      if StrictlyWithin(ImagesOutput(site, c), q) {
        ImagesCopiedInside(start, site, done, c, pr, v, w, q);
      } else {
        ImagesCopiedOutside(start, site, done, c, pr, v, w, q);
      }
    }
  }

  /** Once the class is finished it joins the finished classes. */
  lemma ClassFinished(start: Fs, site: Site, done: set<Name>, c: Name, v: Fs)
    requires Assembled(start, site, Stage(done, Some((c, Finished(start, site, c)))), v)
    ensures Assembled(start, site, Stage(done + {c}, None), v)
  {
    forall q
      ensures ExpectedFile(start, site, Stage(done + {c}, None), q) == ExpectedFile(start, site, Stage(done, Some((c, Finished(start, site, c)))), q)
      ensures ExpectedDirectory(start, site, Stage(done + {c}, None), q) == ExpectedDirectory(start, site, Stage(done, Some((c, Finished(start, site, c)))), q)
    {
    }
  }

  /** `p` names a node file: an XML file directly inside the `nodes` directory of a class. */
  ghost predicate IsNodePath(site: Site, p: Path) {
    && |p| == |site.input| + 3 && p[..|site.input|] == site.input
    && p[|site.input| + 1] == "nodes" && IsXmlName(p[|site.input| + 2])
  }

  /** `p` is a node file of one of `classes`. */
  ghost predicate IsNodeFile(site: Site, classes: set<Name>, p: Path) {
    IsNodePath(site, p) && p[|site.input|] in classes
  }

  ghost function NodeFiles(start: Fs, site: Site, classes: set<Name>): set<Path> {
    set p | p in start.files && IsNodeFile(site, classes, p)
  }

  /** The node files of `classes` that the node stylesheet turns into pages. */
  ghost function Passed(start: Fs, site: Site, classes: set<Name>): set<Path> {
    set p | p in start.files && IsNodeFile(site, classes, p) && Rendered(start, site.engine, site.nodeXsl, p).Some?
  }

  /** The node files of `classes` on which the node stylesheet fails. */
  ghost function Failed(start: Fs, site: Site, classes: set<Name>): set<Path> {
    set p | p in start.files && IsNodeFile(site, classes, p) && Rendered(start, site.engine, site.nodeXsl, p).None?
  }

  /** Every node file either passes or fails, never both: the two counts add up to the number of node files. */
  lemma PassedOrFailed(start: Fs, site: Site, classes: set<Name>)
    ensures Passed(start, site, classes) * Failed(start, site, classes) == {}
    ensures Passed(start, site, classes) + Failed(start, site, classes) == NodeFiles(start, site, classes)
    ensures |Passed(start, site, classes)| + |Failed(start, site, classes)| == |NodeFiles(start, site, classes)|
  {
    var a, b := Passed(start, site, classes), Failed(start, site, classes);
    assert a + b == NodeFiles(start, site, classes);
    assert |a + b| == |a| + |b| - |a * b|;
  }

  lemma NodeFileNamed(site: Site, c: Name, n: Name)
    ensures var p := NodesInput(site, c) + [n];
      && p[..|site.input|] == site.input && p[|site.input|] == c && p[|site.input| + 2] == n
      && (IsNodeFile(site, {c}, p) <==> IsXmlName(n))
  {
    var p := NodesInput(site, c) + [n];
    assert p[..|site.input|] == site.input;
  }

  lemma NodeFileOf(site: Site, c: Name, p: Path)
    requires IsNodeFile(site, {c}, p)
    ensures p == NodesInput(site, c) + [p[|site.input| + 2]]
  {
  }

  /** A class without a `nodes` directory has no node files. */
  lemma NoNodesDirectoryNoNodes(start: Fs, site: Site, c: Name)
    requires WellFormed(start) && !HasNodes(start, site, c)
    ensures Passed(start, site, {c}) == {} && Failed(start, site, {c}) == {}
  {
    forall p | p in start.files && IsNodeFile(site, {c}, p) ensures false {
      NodeFileOf(site, c, p);
    }
  }

  /** Adding a class to the finished ones adds its own node files to each count. */
  lemma CountsAdd(start: Fs, site: Site, done: set<Name>, c: Name)
    requires c !in done
    ensures |Passed(start, site, done + {c})| == |Passed(start, site, done)| + |Passed(start, site, {c})|
    ensures |Failed(start, site, done + {c})| == |Failed(start, site, done)| + |Failed(start, site, {c})|
  {
    assert Passed(start, site, done + {c}) == Passed(start, site, done) + Passed(start, site, {c});
    assert Passed(start, site, done) * Passed(start, site, {c}) == {};
    assert Failed(start, site, done + {c}) == Failed(start, site, done) + Failed(start, site, {c});
    assert Failed(start, site, done) * Failed(start, site, {c}) == {};
  }

  /** The node files among `ns` in the `nodes` directory of class `c` that the node stylesheet turns into pages. */
  ghost function PassedAmong(start: Fs, site: Site, c: Name, ns: set<Name>): set<Path> {
    set n | n in ns && Rendered(start, site.engine, site.nodeXsl, NodesInput(site, c) + [n]).Some? :: NodesInput(site, c) + [n]
  }

  ghost function FailedAmong(start: Fs, site: Site, c: Name, ns: set<Name>): set<Path> {
    set n | n in ns && Rendered(start, site.engine, site.nodeXsl, NodesInput(site, c) + [n]).None? :: NodesInput(site, c) + [n]
  }

  /** Taking in one more node file adds it to exactly one of the two counts. */
  lemma AmongGrows(start: Fs, site: Site, c: Name, ns: set<Name>, n: Name)
    requires n !in ns
    ensures var p := NodesInput(site, c) + [n];
      && PassedAmong(start, site, c, ns + {n}) ==
           PassedAmong(start, site, c, ns) + (if Rendered(start, site.engine, site.nodeXsl, p).Some? then {p} else {})
      && FailedAmong(start, site, c, ns + {n}) ==
           FailedAmong(start, site, c, ns) + (if Rendered(start, site.engine, site.nodeXsl, p).Some? then {} else {p})
      && p !in PassedAmong(start, site, c, ns) && p !in FailedAmong(start, site, c, ns)
  {
    var p := NodesInput(site, c) + [n];
    forall m | m in ns ensures NodesInput(site, c) + [m] != p {
      assert (NodesInput(site, c) + [m])[|p| - 1] == m;
    }
  }

  /** Once every XML file of the class has been taken in, the counts are those of the class's node files. */
  lemma AmongAll(start: Fs, site: Site, c: Name)
    ensures var names := XmlFileNames(start.files, NodesInput(site, c));
      && PassedAmong(start, site, c, names) == Passed(start, site, {c})
      && FailedAmong(start, site, c, names) == Failed(start, site, {c})
  {
    var names := XmlFileNames(start.files, NodesInput(site, c));
    forall p
      ensures p in PassedAmong(start, site, c, names) <==> p in Passed(start, site, {c})
      ensures p in FailedAmong(start, site, c, names) <==> p in Failed(start, site, {c})
    {
      if p in Passed(start, site, {c}) + Failed(start, site, {c}) {
        NodeFileOf(site, c, p);
        XmlFileNamesAt(start.files, NodesInput(site, c), p[|site.input| + 2]);
      }
      if p in PassedAmong(start, site, c, names) + FailedAmong(start, site, c, names) {
        var n :| n in names && p == NodesInput(site, c) + [n];
        XmlFileNamesAt(start.files, NodesInput(site, c), n);
        NodeFileNamed(site, c, n);
      }
    }
  }

  /** `passed` and `failed` count the node files among `ns` whose transform succeeds and fails. */
  ghost predicate Counted(start: Fs, site: Site, c: Name, ns: set<Name>, passed: nat, failed: nat) {
    && passed == |PassedAmong(start, site, c, ns)|
    && failed == |FailedAmong(start, site, c, ns)|
    && passed + failed == |ns|
  }

  /**
   * One pass of the node loop (Program.cs:274-285): the page of node file `n` is written exactly
   * when its transform succeeds, and exactly one of the two counters goes up by one.
   */
  method TransformNode(disk: Disk, site: Site, c: Name, n: Name, passed: nat, failed: nat,
                       ghost start: Fs, ghost done: set<Name>, ghost nodes: set<Name>)
    returns (passed': nat, failed': nat)
    requires disk.Valid() && Ready(start, site) && c !in done
    requires Assembled(start, site, Stage(done, Some((c, Progress(true, nodes, false, false)))), disk.View())
    requires n in XmlFileNames(start.files, NodesInput(site, c)) && n !in nodes
    requires Counted(start, site, c, nodes, passed, failed)
    modifies disk
    ensures disk.Valid()
    ensures Assembled(start, site, Stage(done, Some((c, Progress(true, nodes + {n}, false, false)))), disk.View())
    ensures Counted(start, site, c, nodes + {n}, passed', failed')
    ensures passed <= passed' && failed <= failed' && passed' + failed' == passed + failed + 1
    ensures passed' == passed + 1 <==> Rendered(start, site.engine, site.nodeXsl, NodesInput(site, c) + [n]).Some?
  {
    NodePage(start, site, done, c, nodes, n, disk.View());
    CountOne(start, site, c, nodes, n, Rendered(start, site.engine, site.nodeXsl, NodesInput(site, c) + [n]).Some?);
    assert |nodes + {n}| == |nodes| + 1;
    var res := TransformXml(disk, site.engine, site.nodeXsl, NodesInput(site, c) + [n], NodesOutput(site, c) + [PageName(n)]);
    // The page's directory exists, so a failed Save (which would throw) cannot happen here.
    assert res != Unsaved;
    if res != Transformed {
      return passed, failed + 1;
    }
    passed', failed' := passed + 1, failed;
  }

  /**
   * The loop over the XML files `names` of a class's `nodes` directory (Program.cs:273-286):
   * each one is transformed into a page of the same title; `passed` and `failed` count the
   * transforms that succeeded and failed.
   */
  method TransformNodes(disk: Disk, site: Site, c: Name, names: set<Name>, ghost start: Fs, ghost done: set<Name>)
    returns (passed: nat, failed: nat)
    requires disk.Valid() && Ready(start, site) && c !in done
    requires names == XmlFileNames(start.files, NodesInput(site, c))
    requires Assembled(start, site, Stage(done, Some((c, Progress(true, {}, false, false)))), disk.View())
    modifies disk
    ensures disk.Valid()
    ensures Assembled(start, site, Stage(done, Some((c, Progress(true, names, false, false)))), disk.View())
    ensures Counted(start, site, c, names, passed, failed)
  {
    var pending := names;
    ghost var taken: set<Name> := {};
    passed, failed := 0, 0;
    while pending != {}
      invariant pending <= names && taken == names - pending
      invariant disk.Valid()
      invariant Assembled(start, site, Stage(done, Some((c, Progress(true, taken, false, false)))), disk.View())
      invariant Counted(start, site, c, taken, passed, failed)
      decreases pending
    {
      var n :| n in pending;
      TakeOne(names, pending, taken, n);
      passed, failed := TransformNode(disk, site, c, n, passed, failed, start, done, taken);
      pending := pending - {n};
      taken := taken + {n};
    }
    assert taken == names;
  }

  /** Each transform of a node file adds one to the count of passes or to the count of failures. */
  lemma CountOne(start: Fs, site: Site, c: Name, ns: set<Name>, n: Name, ok: bool)
    requires n !in ns && ok == Rendered(start, site.engine, site.nodeXsl, NodesInput(site, c) + [n]).Some?
    ensures |PassedAmong(start, site, c, ns + {n})| == |PassedAmong(start, site, c, ns)| + (if ok then 1 else 0)
    ensures |FailedAmong(start, site, c, ns + {n})| == |FailedAmong(start, site, c, ns)| + (if ok then 0 else 1)
  {
    AmongGrows(start, site, c, ns, n);
  }

  /** Moving one name from the pending ones to the taken ones keeps the two apart and together complete. */
  lemma TakeOne(names: set<Name>, pending: set<Name>, taken: set<Name>, n: Name)
    requires pending <= names && taken == names - pending && n in pending
    ensures pending - {n} <= names && taken + {n} == names - (pending - {n}) && n !in taken
  {
  }

  /** The node loop enumerates the XML files the class had when the loop started. */
  lemma SameNodeFiles(start: Fs, site: Site, done: set<Name>, c: Name, v: Fs)
    requires Ready(start, site) && c !in done
    requires Assembled(start, site, Stage(done, Some((c, Progress(true, {}, false, false)))), v)
    ensures XmlFileNames(v.files, NodesInput(site, c)) == XmlFileNames(start.files, NodesInput(site, c))
  {
    forall n ensures n in XmlFileNames(v.files, NodesInput(site, c)) <==> n in XmlFileNames(start.files, NodesInput(site, c)) {
      XmlFileNamesAt(v.files, NodesInput(site, c), n);
      XmlFileNamesAt(start.files, NodesInput(site, c), n);
      NodeFileNamed(site, c, n);
      InputIsNotOutput(site, NodesInput(site, c) + [n]);
      AssembledOutside(start, site, Stage(done, Some((c, Progress(true, {}, false, false)))), v, NodesInput(site, c) + [n]);
    }
  }

  /** An exception that ends the run, with the path it is about. */
  datatype Crash =
    | CannotCreate(dir: Path)    // Directory.CreateDirectory met a file on the way
    | MissingSource(dir: Path)   // CopyWholeDirectory found no source directory
    | CopyCollision(dir: Path)   // CopyWholeDirectory met a file where a directory goes, or the reverse
    | CannotSave(file: Path)     // a transformed page could not be saved

  /** The class directories of the intermediate directory, as Directory.EnumerateDirectories lists them. */
  ghost function Classes(start: Fs, site: Site): set<Name> {
    SubdirectoryNames(start.dirs, site.input)
  }

  /** A class is a directory directly inside the intermediate directory, whatever its name. */
  lemma ClassesAt(start: Fs, site: Site, c: Name)
    ensures c in Classes(start, site) <==> site.input + [c] in start.dirs
  {
    SubdirectoryNamesAt(start.dirs, site.input, c);
  }

  /** The classes that make the run crash: all of them when a file blocks the output directory, else those without `img`. */
  ghost predicate Crashes(start: Fs, site: Site, c: Name) {
    Obstructed(start, site.output) || ImagesInput(site, c) !in start.dirs
  }

  /**
   * The part of a class's pass that runs when it has a `nodes` directory (Program.cs:267-289):
   * create the output `nodes` directory, transform the node files, then the class file.
   */
  method DocumentNodes(disk: Disk, site: Site, c: Name, ghost start: Fs, ghost done: set<Name>)
    returns (passed: nat, failed: nat)
    requires disk.Valid() && Ready(start, site) && c !in done
    requires Assembled(start, site, Stage(done, Some((c, Begun))), disk.View())
    modifies disk
    ensures disk.Valid()
    ensures Assembled(start, site,
                      Stage(done, Some((c, Progress(true, XmlFileNames(start.files, NodesInput(site, c)), true, false)))),
                      disk.View())
    ensures passed == |Passed(start, site, {c})| && failed == |Failed(start, site, {c})|
    ensures passed + failed == |XmlFileNames(start.files, NodesInput(site, c))|
  {
    NodesCreated(start, site, done, c, disk.View());
    var madeNodes := SafeCreateDirectory(disk, NodesOutput(site, c));
    var names := XmlFileNames(disk.files, NodesInput(site, c));
    SameNodeFiles(start, site, done, c, disk.View());
    passed, failed := TransformNodes(disk, site, c, names, start, done);
    AmongAll(start, site, c);
    ClassPage(start, site, done, c, XmlFileNames(start.files, NodesInput(site, c)), disk.View());
    var paged := TransformXml(disk, site.engine, site.classXsl, ClassInput(site, c) + [c + ".xml"],
                              ClassOutput(site, c) + [c + ".html"]);
  }

  /** The image copy at the end of a class's pass (Program.cs:291-293): it fails only when the class has no `img`. */
  method CopyImages(disk: Disk, site: Site, c: Name, ghost start: Fs, ghost done: set<Name>, ghost pr: Progress)
    returns (copied: bool)
    requires disk.Valid() && Ready(start, site) && c !in done && !pr.imaged
    requires Assembled(start, site, Stage(done, Some((c, pr))), disk.View())
    modifies disk
    ensures disk.Valid()
    ensures copied <==> ImagesInput(site, c) in start.dirs
    ensures copied ==> Assembled(start, site, Stage(done, Some((c, pr.(imaged := true)))), disk.View())
    ensures !copied ==> disk.View() == old(disk.View())
    ensures Confined(old(disk.View()), disk.View(), ImagesOutput(site, c))
  {
    ImagesFree(start, site, done, c, pr, disk.View());
    var outcome := CopyWholeDirectory(disk, ImagesInput(site, c), ImagesOutput(site, c));
    copied := outcome == Copied;
    if copied {
      ImagesCopied(start, site, done, c, pr, old(disk.View()), disk.View());
    }
  }

  /**
   * One pass of the class loop (Program.cs:262-293): create the class's output directory; when
   * the class has a `nodes` directory, document its nodes and the class; finally copy its
   * `img` directory.
   */
  method ProcessClass(disk: Disk, site: Site, c: Name, ghost start: Fs, ghost done: set<Name>)
    returns (passed: nat, failed: nat, crash: Option<Crash>, ghost reached: Stage)
    requires disk.Valid() && Ready(start, site) && c !in done
    requires Assembled(start, site, Stage(done, None), disk.View())
    modifies disk
    ensures disk.Valid()
    ensures crash.None? <==> !Crashes(start, site, c)
    ensures crash.Some? ==> crash.value == if Obstructed(start, site.output) then CannotCreate(ClassOutput(site, c))
                                           else MissingSource(ImagesInput(site, c))
    ensures Assembled(start, site, reached, disk.View())
    ensures crash.None? ==> reached == Stage(done + {c}, None)
    ensures crash.Some? ==> reached.done == done && (reached.current.None? || reached.current.value.0 == c)
    ensures Confined(start, disk.View(), site.output)
    ensures crash.None? ==> passed == |Passed(start, site, {c})| && failed == |Failed(start, site, {c})|
    ensures crash.None? ==> passed + failed == if HasNodes(start, site, c) then |XmlFileNames(start.files, NodesInput(site, c))| else 0
  {
    reached := Stage(done, None);
    ClassCreated(start, site, done, c, disk.View());
    var made := SafeCreateDirectory(disk, ClassOutput(site, c));
    if !made {
      AssembledConfined(start, site, reached, disk.View());
      return 0, 0, Some(CannotCreate(ClassOutput(site, c))), reached;
    }
    passed, failed := 0, 0;
    ghost var pr := Begun;
    InputIsNotOutput(site, NodesInput(site, c));
    AssembledOutside(start, site, Stage(done, Some((c, Begun))), disk.View(), NodesInput(site, c));
    if NodesInput(site, c) in disk.dirs {
      passed, failed := DocumentNodes(disk, site, c, start, done);
      pr := Progress(true, XmlFileNames(start.files, NodesInput(site, c)), true, false);
    } else {
      NoNodesDirectoryNoNodes(start, site, c);
    }
    reached := Stage(done, Some((c, pr)));
    var copied := CopyImages(disk, site, c, start, done, pr);
    if !copied {
      AssembledConfined(start, site, reached, disk.View());
      return passed, failed, Some(MissingSource(ImagesInput(site, c))), reached;
    }
    ClassFinished(start, site, done, c, disk.View());
    reached := Stage(done + {c}, None);
    AssembledConfined(start, site, reached, disk.View());
    crash := None;
  }

  /**
   * The class loop of Program.Main (Program.cs:255-293), over the subdirectories of the
   * intermediate directory in whatever order the enumeration yields them. Without a crash,
   * the output directory holds exactly the pages and images of every class and the counts
   * are those of all node files; a crash happens exactly when some class cannot be done.
   */
  method AssembleClasses(disk: Disk, site: Site) returns (passed: nat, failed: nat, crash: Option<Crash>, ghost reached: Stage)
    requires disk.Valid() && Ready(disk.View(), site)
    modifies disk
    ensures disk.Valid()
    ensures crash.None? <==> forall c | c in Classes(old(disk.View()), site) :: !Crashes(old(disk.View()), site, c)
    ensures Assembled(old(disk.View()), site, reached, disk.View())
    ensures reached.done <= Classes(old(disk.View()), site)
    ensures crash.None? ==> reached == Stage(Classes(old(disk.View()), site), None)
    ensures Confined(old(disk.View()), disk.View(), site.output)
    ensures crash.None? ==> passed == |Passed(old(disk.View()), site, Classes(old(disk.View()), site))|
    ensures crash.None? ==> failed == |Failed(old(disk.View()), site, Classes(old(disk.View()), site))|
  {
    ghost var start := disk.View();
    var classes := SubdirectoryNames(disk.dirs, site.input);
    var pending := classes;
    passed, failed := 0, 0;
    NothingAssembledYet(start, site);
    assert classes - pending == {};
    while pending != {}
      invariant pending <= classes
      invariant disk.Valid()
      invariant Assembled(start, site, Stage(classes - pending, None), disk.View())
      invariant passed == |Passed(start, site, classes - pending)|
      invariant failed == |Failed(start, site, classes - pending)|
      invariant forall c | c in classes - pending :: !Crashes(start, site, c)
      decreases pending
    {
      var c :| c in pending;
      var p, f, crashed, at := ProcessClass(disk, site, c, start, classes - pending);
      if crashed.Some? {
        return passed, failed, crashed, at;
      }
      CountsAdd(start, site, classes - pending, c);
      assert classes - (pending - {c}) == (classes - pending) + {c};
      passed, failed := passed + p, failed + f;
      pending := pending - {c};
    }
    assert classes - pending == classes;
    reached := Stage(classes, None);
    AssembledConfined(start, site, reached, disk.View());
    crash := None;
  }

  /** Every class gets its output directory, whether or not it has nodes. */
  lemma ClassDirectoryMade(start: Fs, site: Site, fs: Fs, c: Name)
    requires Assembled(start, site, Stage(Classes(start, site), None), fs) && c in Classes(start, site)
    ensures ClassOutput(site, c) in fs.dirs
  {
    ClassOutputPath(site, c, []);
    assert ClassOutput(site, c) + [] == ClassOutput(site, c);
  }

  /** A node file's class is one of the classes the loop visits. */
  lemma NodeFileClass(start: Fs, site: Site, c: Name, n: Name)
    requires WellFormed(start) && NodesInput(site, c) + [n] in start.files
    ensures c in Classes(start, site) && HasNodes(start, site, c)
  {
    var p := NodesInput(site, c) + [n];
    AncestorsAreDirectories(start, p, |p| - 1);
    AncestorsAreDirectories(start, p, |p| - 2);
    assert p[..|p| - 1] == NodesInput(site, c) && p[..|p| - 2] == ClassInput(site, c);
    SubdirectoryNamesAt(start.dirs, site.input, c);
  }

  /** Node file `T.xml` of class `C` becomes `C/nodes/T.html`, holding its transform, exactly when the transform succeeds. */
  lemma NodePagePlaced(start: Fs, site: Site, fs: Fs, c: Name, n: Name)
    requires Ready(start, site) && Assembled(start, site, Stage(Classes(start, site), None), fs)
    requires NodesInput(site, c) + [n] in start.files && IsXmlName(n)
    ensures var page := NodesOutput(site, c) + [PageName(n)];
      var result := Rendered(start, site.engine, site.nodeXsl, NodesInput(site, c) + [n]);
      && (page in fs.files <==> result.Some?)
      && (page in fs.files ==> Some(fs.files[page]) == result)
  {
    NodeFileClass(start, site, c, n);
    XmlFileNamesAt(start.files, NodesInput(site, c), n);
    PageNameRoundTrip(n);
    assert NodesOutput(site, c) + [PageName(n)] == ClassOutput(site, c) + ["nodes", PageName(n)];
    ClassOutputPath(site, c, ["nodes", PageName(n)]);
  }

  /** The class page `C/C.html` holds the class transform, and exists only when the class has nodes and the transform succeeds. */
  lemma ClassPagePlaced(start: Fs, site: Site, fs: Fs, c: Name)
    requires Assembled(start, site, Stage(Classes(start, site), None), fs) && c in Classes(start, site)
    ensures var page := ClassOutput(site, c) + [c + ".html"];
      var result := Rendered(start, site.engine, site.classXsl, ClassInput(site, c) + [c + ".xml"]);
      && (page in fs.files <==> HasNodes(start, site, c) && result.Some?)
      && (page in fs.files ==> Some(fs.files[page]) == result)
  {
    ClassOutputPath(site, c, [c + ".html"]);
  }

  /** Below `C/img` the output mirrors the class's `img` directory: the same files with the same contents, and the same directories. */
  lemma ImagesPlaced(start: Fs, site: Site, fs: Fs, c: Name, r: Path)
    requires Assembled(start, site, Stage(Classes(start, site), None), fs) && c in Classes(start, site)
    ensures var q, p := ImagesOutput(site, c) + r, ImagesInput(site, c) + r;
      && (q in fs.files <==> r != [] && p in start.files)
      && (q in fs.files ==> fs.files[q] == start.files[p])
      && (q in fs.dirs <==> p in start.dirs)
  {
    assert ImagesOutput(site, c) + r == ClassOutput(site, c) + (["img"] + r);
    assert ImagesInput(site, c) + r == ClassInput(site, c) + (["img"] + r);
    ClassOutputPath(site, c, ["img"] + r);
    ClassPageIsNoDirectoryName(c);
  }

  /** The counts cover every node file of the intermediate tree: each lies in a class the loop visits. */
  lemma EveryNodeFileCounted(start: Fs, site: Site)
    requires WellFormed(start)
    ensures NodeFiles(start, site, Classes(start, site)) == set p | p in start.files && IsNodePath(site, p)
    ensures |Passed(start, site, Classes(start, site))| + |Failed(start, site, Classes(start, site))|
         == |set p | p in start.files && IsNodePath(site, p)|
  {
    forall p | p in start.files && IsNodePath(site, p) ensures p[|site.input|] in Classes(start, site) {
      var c, n := p[|site.input|], p[|site.input| + 2];
      assert p == NodesInput(site, c) + [n];
      NodeFileClass(start, site, c, n);
    }
    PassedOrFailed(start, site, Classes(start, site));
  }
}
