/**
 * Program.Main (Program.cs:147-303): read the options, give up with a message when a required
 * one is missing, prepare the directories, load the three stylesheets, run the class loop, then
 * write the index page and copy the stylesheets of the generated site.
 */
module Program {
  import opened Wrappers
  import opened FileSystem
  import opened Arguments
  import opened Directories
  import opened Transform
  import opened Assembly

  /**
   * What Main takes from its surroundings: the default base directory (the parent of the
   * directory holding the executable), the current directory, Path.GetFullPath as a function
   * from an option's text to a path, and whether the operating system lets a directory be
   * deleted.
   */
  datatype Host = Host(defaultBase: Path, currentDir: Path, fullPath: string -> Path, releases: Path -> bool)

  /** Why Main printed an error and returned. */
  datatype Fatal =
    | MissingTitle
    | NotFromIntermediate
    | MissingIntermediateDir
    | OutputNotRemoved
    | StylesheetRejected(xsl: Path)

  /** How a run ends: an error message and return, an exception, or the final report of the two counts. */
  datatype Outcome = Aborted(reason: Fatal) | Crashed(crash: Crash) | Completed(passed: nat, failed: nat)

  /** The values Main reads from its arguments. */
  datatype Settings = Settings(
    title: Option<string>,
    baseDir: Path,
    outputRoot: Path,
    indexXsl: Path,
    classXsl: Path,
    nodeXsl: Path,
    fromIntermediate: bool,
    intermediateDir: Option<Path>,
    hardClean: bool)

  /** The path an option gives, resolved by Path.GetFullPath, or the default when the option is absent. */
  function Resolved(host: Host, text: Option<string>, default: Option<Path>): Option<Path> {
    if text.Some? then Some(host.fullPath(text.value)) else default
  }

  /** Path.Combine(root, title): an empty title leaves the root itself. */
  function OutputDir(root: Path, title: string): (r: Path)
    ensures Within(root, r) && |r| <= |root| + 1
    ensures r == root <==> title == ""
    ensures title != "" ==> r[|root|] == title
  {
    if title == "" then root else root + [title]
  }

  /** The options Main reads before it tests for `-fromintermediate`, in the order it reads them (Program.cs:157-178). */
  const MainOptions: seq<string> := ["-name=", "-basedir=", "-outputdir=", "-indexxsl=", "-classxsl=", "-nodexsl="]

  /**
   * The options in the order Main consumes them (Program.cs:156-215); each ParseArgumentValue
   * removes the argument it used before the next search. The intermediate directory is read
   * only under `-fromintermediate`.
   */
  function ReadSettings(args: seq<string>, host: Host): (r: Settings)
    ensures r.intermediateDir.Some? ==> r.fromIntermediate
  {
    var (values, a6) := ReadInTurn(args, MainOptions);
    var baseDir := Resolved(host, values[1], Some(host.defaultBase)).value;
    var fromIntermediate := "-fromintermediate" in a6;
    var (inter, a7) := if fromIntermediate then Extracted(a6, "-intermediatedir=", None) else (None, a6);
    Settings(
      values[0],
      baseDir,
      Resolved(host, values[2], Some(host.currentDir)).value,
      Resolved(host, values[3], Some(baseDir + ["xslt", "index_xform.xsl"])).value,
      Resolved(host, values[4], Some(baseDir + ["xslt", "class_docs_xform.xsl"])).value,
      Resolved(host, values[5], Some(baseDir + ["xslt", "node_docs_xform.xsl"])).value,
      fromIntermediate,
      Resolved(host, inter, None),
      "-cleanoutput" in a7)
  }

  /** No two of Main's option prefixes and flags can match the same argument. */
  lemma OptionsApart()
    ensures forall i, j | 0 <= i < j < |MainOptions| :: Apart(MainOptions[i], MainOptions[j])
    ensures forall i | 0 <= i < |MainOptions| :: Apart(MainOptions[i], "-intermediatedir=")
    ensures forall i | 0 <= i < |MainOptions| :: Apart(MainOptions[i], "-fromintermediate")
    ensures forall i | 0 <= i < |MainOptions| :: Apart(MainOptions[i], "-cleanoutput")
    ensures Apart("-intermediatedir=", "-cleanoutput")
  {
    var ps, t, f, c := MainOptions, "-intermediatedir=", "-fromintermediate", "-cleanoutput";
    forall i, j | 0 <= i < j < |ps| ensures Apart(ps[i], ps[j]) {
      if i == 0 && j == 5 {
        assert ps[i][2] != ps[j][2];
      } else {
        assert ps[i][1] != ps[j][1];
      }
    }
    forall i | 0 <= i < |ps| ensures Apart(ps[i], t) && Apart(ps[i], f) && Apart(ps[i], c) {
      if i == 3 {
        assert ps[i][3] != t[3];
      } else {
        assert ps[i][1] != t[1];
      }
      assert ps[i][1] != f[1];
      if i == 4 {
        assert ps[i][3] != c[3];
      } else {
        assert ps[i][1] != c[1];
      }
    }
    assert t[1] != c[1];
  }

  /**
   * Every option Main reads has the value that the first argument with its prefix in the
   * original command line gives, and each flag is found exactly when the command line holds
   * it: the prefixes and flags are apart, so the arguments that earlier reads remove never
   * change what a later read or test finds.
   */
  lemma OptionsReadIndependently(args: seq<string>)
    ensures var (values, rest) := ReadInTurn(args, MainOptions);
      && (forall k | 0 <= k < |MainOptions| :: values[k] == Extracted(args, MainOptions[k], None).0)
      && Extracted(rest, "-intermediatedir=", None).0 == Extracted(args, "-intermediatedir=", None).0
      && ("-fromintermediate" in rest <==> "-fromintermediate" in args)
      && ("-cleanoutput" in rest <==> "-cleanoutput" in args)
      && ("-cleanoutput" in Extracted(rest, "-intermediatedir=", None).1 <==> "-cleanoutput" in args)
  {
    OptionsApart();
    forall k | 0 <= k < |MainOptions|
      ensures ReadInTurn(args, MainOptions).0[k] == Extracted(args, MainOptions[k], None).0
    {
      InTurnAsAlone(args, MainOptions, k);
    }
    var rest := ReadInTurn(args, MainOptions).1;
    InTurnKeeps(args, MainOptions, "-intermediatedir=");
    InTurnKeepsFlag(args, MainOptions, "-fromintermediate");
    InTurnKeepsFlag(args, MainOptions, "-cleanoutput");
    FlagPast(rest, "-intermediatedir=", "-cleanoutput");
  }

  /** So the settings are those the command line gives option by option, and the two flags are tested on it as a whole. */
  lemma SettingsFromCommandLine(args: seq<string>, host: Host)
    ensures var s := ReadSettings(args, host);
      && s.title == Extracted(args, "-name=", None).0
      && s.baseDir == Resolved(host, Extracted(args, "-basedir=", None).0, Some(host.defaultBase)).value
      && s.outputRoot == Resolved(host, Extracted(args, "-outputdir=", None).0, Some(host.currentDir)).value
      && (s.fromIntermediate <==> "-fromintermediate" in args)
      && (s.fromIntermediate ==> s.intermediateDir == Resolved(host, Extracted(args, "-intermediatedir=", None).0, None))
      && (s.hardClean <==> "-cleanoutput" in args)
  {
    OptionsReadIndependently(args);
    assert MainOptions[0] == "-name=" && MainOptions[1] == "-basedir=" && MainOptions[2] == "-outputdir=";
  }

  /**
   * Reads in turn, one step at a time: when the `k`-th read of `ps` on `items[k]` finds `vs[k]`
   * and leaves `items[k + 1]`, reading all of `ps` on `items[0]` finds `vs` and leaves the last list.
   */
  lemma {:induction false} ReadsInTurn(ps: seq<string>, vs: seq<Option<string>>, items: seq<seq<string>>)
    requires |vs| == |ps| && |items| == |ps| + 1
    requires forall k | 0 <= k < |ps| :: (vs[k], items[k + 1]) == Extracted(items[k], ps[k], None)
    ensures ReadInTurn(items[0], ps) == (vs, items[|ps|])
    decreases |ps|
  {
    if ps != [] {
      forall k | 0 <= k < |ps| - 1
        ensures (vs[1..][k], items[1..][k + 1]) == Extracted(items[1..][k], ps[1..][k], None)
      {
        assert (vs[k + 1], items[k + 2]) == Extracted(items[k + 1], ps[k + 1], None);
      }
      ReadsInTurn(ps[1..], vs[1..], items[1..]);
      assert vs == [vs[0]] + vs[1..];
    }
  }

  /** Six reads in turn, unrolled. */
  lemma SixInTurn(args: seq<string>, ps: seq<string>)
    requires |ps| == 6
    ensures var (v1, a1) := Extracted(args, ps[0], None);
      var (v2, a2) := Extracted(a1, ps[1], None);
      var (v3, a3) := Extracted(a2, ps[2], None);
      var (v4, a4) := Extracted(a3, ps[3], None);
      var (v5, a5) := Extracted(a4, ps[4], None);
      var (v6, a6) := Extracted(a5, ps[5], None);
      ReadInTurn(args, ps) == ([v1, v2, v3, v4, v5, v6], a6)
  {
    var (v1, a1) := Extracted(args, ps[0], None);
    var (v2, a2) := Extracted(a1, ps[1], None);
    var (v3, a3) := Extracted(a2, ps[2], None);
    var (v4, a4) := Extracted(a3, ps[3], None);
    var (v5, a5) := Extracted(a4, ps[4], None);
    var (v6, a6) := Extracted(a5, ps[5], None);
    var vs, items := [v1, v2, v3, v4, v5, v6], [args, a1, a2, a3, a4, a5, a6];
    forall k | 0 <= k < 6 ensures (vs[k], items[k + 1]) == Extracted(items[k], ps[k], None) {
    }
    ReadsInTurn(ps, vs, items);
  }

  /** The six reads of MainOptions one after the other, as Main makes them. */
  lemma MainOptionsInTurn(args: seq<string>)
    ensures var (v1, a1) := Extracted(args, "-name=", None);
      var (v2, a2) := Extracted(a1, "-basedir=", None);
      var (v3, a3) := Extracted(a2, "-outputdir=", None);
      var (v4, a4) := Extracted(a3, "-indexxsl=", None);
      var (v5, a5) := Extracted(a4, "-classxsl=", None);
      var (v6, a6) := Extracted(a5, "-nodexsl=", None);
      ReadInTurn(args, MainOptions) == ([v1, v2, v3, v4, v5, v6], a6)
  {
    SixInTurn(args, MainOptions);
  }

  /** What the class loop works on once the settings are complete. */
  function SiteOf(s: Settings, engine: Engine): Site
    requires s.title.Some? && s.intermediateDir.Some?
  {
    Site(s.intermediateDir.value, OutputDir(s.outputRoot, s.title.value), s.classXsl, s.nodeXsl, engine)
  }

  /** The directory whose `css` subdirectory is copied into the site. */
  function StylesheetsOf(s: Settings): Path {
    s.baseDir + ["css"]
  }

  /**
   * Directory.Delete(OutputDir, hardClean) succeeds: the directory is not the root, it is
   * empty unless the deletion is recursive, and the host lets it go.
   */
  ghost predicate Removable(fs: Fs, out: Path, hardClean: bool, host: Host): (r: bool)
    ensures r ==> out != [] && host.releases(out)
    ensures r && !hardClean ==> forall p | p in fs.files :: !StrictlyWithin(out, p)
  {
    out != [] && (hardClean || IsEmptyDirectory(fs, out)) && host.releases(out)
  }

  /**
   * Main's option handling (Program.cs:157-212), as the outcome that stops the run there, if any,
   * and the file system it leaves: each directory option creates its directory, a missing title,
   * a missing `-fromintermediate` flag and a missing intermediate directory stop the run.
   */
  ghost function Prepared(fs: Fs, s: Settings): (r: (Option<Outcome>, Fs))
    ensures r.1.files == fs.files && fs.dirs <= r.1.dirs
    ensures r.0.Some? ==> r.0.value.Aborted? || (r.0.value.Crashed? && r.0.value.crash.CannotCreate?)
    ensures r.0.None? ==> s.title.Some? && s.fromIntermediate && s.intermediateDir.Some?
  {
    if s.title.None? then (Some(Aborted(MissingTitle)), fs)
    else if Obstructed(fs, s.baseDir) then (Some(Crashed(CannotCreate(s.baseDir))), fs)
    else
      var fs1 := WithDirectory(fs, s.baseDir);
      if Obstructed(fs1, s.outputRoot) then (Some(Crashed(CannotCreate(s.outputRoot))), fs1)
      else
        var fs2 := WithDirectory(fs1, s.outputRoot);
        if !s.fromIntermediate then (Some(Aborted(NotFromIntermediate)), fs2)
        else if s.intermediateDir.Some? && Obstructed(fs2, s.intermediateDir.value) then
          (Some(Crashed(CannotCreate(s.intermediateDir.value))), fs2)
        else if s.intermediateDir.None? then (Some(Aborted(MissingIntermediateDir)), fs2)
        else (None, WithDirectory(fs2, s.intermediateDir.value))
  }

  /**
   * Cleaning the output directory and loading the stylesheets (Program.cs:214-253): an existing
   * output directory is deleted or the run stops, then the index, class and node stylesheets are
   * loaded in that order and the first one rejected stops the run.
   */
  ghost function Cleared(fs: Fs, s: Settings, host: Host, engine: Engine): (r: (Option<Outcome>, Fs))
    requires s.title.Some?
    ensures r.1.dirs <= fs.dirs
    ensures forall p | p in r.1.files :: p in fs.files && r.1.files[p] == fs.files[p]
    ensures r.0.Some? ==> r.0.value.Aborted?
    ensures r.0 == Some(Aborted(OutputNotRemoved)) ==> r.1 == fs
    ensures r.0 != Some(Aborted(OutputNotRemoved)) ==>
      && OutputDir(s.outputRoot, s.title.value) !in r.1.dirs
      && (forall p | !Within(OutputDir(s.outputRoot, s.title.value), p) :: (p in r.1.files <==> p in fs.files) && (p in r.1.dirs <==> p in fs.dirs))
    ensures r.0 == Some(Aborted(OutputNotRemoved)) <==>
      OutputDir(s.outputRoot, s.title.value) in fs.dirs && !Removable(fs, OutputDir(s.outputRoot, s.title.value), s.hardClean, host)
    ensures r.0.None? <==>
      && (OutputDir(s.outputRoot, s.title.value) in fs.dirs ==> Removable(fs, OutputDir(s.outputRoot, s.title.value), s.hardClean, host))
      && engine.compiles(s.indexXsl) && engine.compiles(s.classXsl) && engine.compiles(s.nodeXsl)
  {
    var out := OutputDir(s.outputRoot, s.title.value);
    if out in fs.dirs && !Removable(fs, out, s.hardClean, host) then (Some(Aborted(OutputNotRemoved)), fs)
    else
      var fs4 := if out in fs.dirs then Without(fs, out) else fs;
      if !engine.compiles(s.indexXsl) then (Some(Aborted(StylesheetRejected(s.indexXsl))), fs4)
      else if !engine.compiles(s.classXsl) then (Some(Aborted(StylesheetRejected(s.classXsl))), fs4)
      else if !engine.compiles(s.nodeXsl) then (Some(Aborted(StylesheetRejected(s.nodeXsl))), fs4)
      else (None, fs4)
  }

  /**
   * Without `-cleanoutput` cleaning never deletes a file: the non-recursive Directory.Delete
   * only removes an output directory that holds no file.
   */
  lemma PlainCleanKeepsFiles(fs: Fs, s: Settings, host: Host, engine: Engine)
    requires WellFormed(fs) && s.title.Some? && !s.hardClean
    ensures Cleared(fs, s, host, engine).1.files == fs.files
  {
    var out := OutputDir(s.outputRoot, s.title.value);
    if out in fs.dirs && Removable(fs, out, false, host) {
      forall p | p in fs.files ensures !Within(out, p) {
        assert p != out && !StrictlyWithin(out, p);
      }
      assert Without(fs, out).files == fs.files;
    }
  }

  /** Everything Main does before the class loop (Program.cs:156-253). */
  ghost function Setup(fs: Fs, s: Settings, host: Host, engine: Engine): (r: (Option<Outcome>, Fs))
    ensures r.0.None? ==> s.title.Some? && s.fromIntermediate && s.intermediateDir.Some?
    ensures r.0.None? ==> engine.compiles(s.indexXsl) && engine.compiles(s.classXsl) && engine.compiles(s.nodeXsl)
    ensures r.0.Some? ==> r.0.value.Aborted? || (r.0.value.Crashed? && r.0.value.crash.CannotCreate?)
  {
    var (stop, fs3) := Prepared(fs, s);
    if stop.Some? then (stop, fs3) else Cleared(fs3, s, host, engine)
  }

  /** The index transform that follows the class loop (Program.cs:296-297). */
  function Indexing(fs: Fs, site: Site, indexXsl: Path): (r: (XformResult, Fs))
    ensures r.1.dirs == fs.dirs
    ensures r.0 == Rejected <==> Rendered(fs, site.engine, indexXsl, site.input + ["index.xml"]).None?
    ensures r.0 != Transformed ==> r.1 == fs
    ensures r.0 == Transformed ==> site.output + ["index.html"] in r.1.files
  {
    Transformation(fs, site.engine, indexXsl, site.input + ["index.xml"], site.output + ["index.html"])
  }

  /** No class makes the loop crash. */
  ghost predicate LoopSucceeds(start: Fs, site: Site) {
    forall c | c in Classes(start, site) :: !Crashes(start, site, c)
  }

  /**
   * What the part of Main after the setup does, starting from `start`: `assembled` is the
   * tree after the class loop, and the run completes exactly when the loop succeeds, the index
   * page can be saved and the stylesheet copy goes through; the final tree is then the index
   * page written into the assembled tree with the stylesheets copied over it.
   */
  ghost predicate GeneratedFrom(start: Fs, site: Site, indexXsl: Path, css: Path, outcome: Outcome, assembled: Fs, final: Fs) {
    var (res, indexed) := Indexing(assembled, site, indexXsl);
    && !outcome.Aborted?
    && WellFormed(assembled)
    && (LoopSucceeds(start, site) ==> Assembled(start, site, Stage(Classes(start, site), None), assembled))
    && (outcome.Completed? <==>
          LoopSucceeds(start, site) && res != Unsaved && css in indexed.dirs && CopyFree(indexed, css, site.output + ["css"]))
    && (outcome.Completed? ==> IsCopy(indexed, css, site.output + ["css"], final))
    && (outcome.Completed? ==> outcome.passed == |Passed(start, site, Classes(start, site))|)
    && (outcome.Completed? ==> outcome.failed == |Failed(start, site, Classes(start, site))|)
  }

  /**
   * The frame of the part of Main after the setup, whatever its outcome: nothing outside the
   * output directory changes; a crash in the class loop or in the index save leaves the tree
   * as the loop left it, and the stylesheet copy touches only the output's `css` directory.
   */
  ghost predicate GeneratedWithin(start: Fs, site: Site, indexXsl: Path, assembled: Fs, final: Fs) {
    var (res, indexed) := Indexing(assembled, site, indexXsl);
    && Confined(start, assembled, site.output)
    && Confined(start, final, site.output)
    && (!LoopSucceeds(start, site) || res == Unsaved ==> final == assembled)
    && (LoopSucceeds(start, site) && res != Unsaved ==> Confined(indexed, final, site.output + ["css"]))
  }

  /** The output directory is kept apart from the intermediate tree and from the stylesheets it receives. */
  ghost predicate Separated(s: Settings) {
    s.title.Some? && s.intermediateDir.Some? ==>
      && Separate(s.intermediateDir.value, OutputDir(s.outputRoot, s.title.value))
      && Separate(StylesheetsOf(s), OutputDir(s.outputRoot, s.title.value))
  }

  lemma SeparateFromChild(a: Path, o: Path, n: Name)
    requires Separate(a, o)
    ensures Separate(a, o + [n])
  {
    assert (o + [n])[..|o|] == o;
    assert |a| <= |o| ==> (o + [n])[..|a|] == o[..|a|];
  }

  /** Once the output directory is gone, the loop can start: nothing lies below it any more. */
  lemma ReadyWithoutOutput(fs: Fs, site: Site)
    requires WellFormed(fs) && Separate(site.input, site.output) && site.output !in fs.dirs
    ensures Ready(fs, site)
  {
    forall q | StrictlyWithin(site.output, q) ensures q !in fs.files && q !in fs.dirs {
      if q in fs.files || q in fs.dirs {
        AncestorsAreDirectories(fs, q, |site.output|);
      }
    }
  }

  /** ParseArgumentPath (Program.cs:33-41): the option's text resolved to a full path, or the default. */
  method ParseArgumentPath(args: ArgumentList, host: Host, prefix: string, default: Option<Path>) returns (value: Option<Path>)
    modifies args
    ensures var (text, rest) := Extracted(old(args.items), prefix, None);
      value == Resolved(host, text, default) && args.items == rest
  {
    var text := args.ParseArgumentValue(prefix, None);
    value := if text.Some? then Some(host.fullPath(text.value)) else default;
  }

  /**
   * ParseArgumentDirectory (Program.cs:43-51): ParseArgumentPath, then the directory is created
   * when it does not exist; `made` is false when Directory.CreateDirectory throws.
   */
  method ParseArgumentDirectory(disk: Disk, args: ArgumentList, host: Host, prefix: string, default: Option<Path>)
    returns (value: Option<Path>, made: bool)
    requires disk.Valid()
    modifies disk, args
    ensures disk.Valid()
    ensures var (text, rest) := Extracted(old(args.items), prefix, None);
      value == Resolved(host, text, default) && args.items == rest
    ensures made == (value.None? || !Obstructed(old(disk.View()), value.value))
    ensures value.Some? && made ==> value.value in disk.dirs
    ensures disk.View() == if value.Some? && made then WithDirectory(old(disk.View()), value.value) else old(disk.View())
  {
    value := ParseArgumentPath(args, host, prefix, default);
    made := true;
    if value.Some? {
      made := SafeCreateDirectory(disk, value.value);
    }
  }

  /** The index transform writes inside the output directory only, so the frame of the class loop carries over. */
  lemma IndexingConfined(start: Fs, assembled: Fs, site: Site, indexXsl: Path)
    requires WellFormed(assembled) && Confined(start, assembled, site.output)
    ensures Confined(start, Indexing(assembled, site, indexXsl).1, site.output)
  {
    TransformationWritesOnlyOutput(assembled, site.engine, indexXsl, site.input + ["index.xml"], site.output + ["index.html"]);
    assert Within(site.output, site.output + ["index.html"]);
  }

  /**
   * The part of Main after the setup (Program.cs:255-302): the class loop, the index page
   * and the copy of the stylesheet directory into the site.
   */
  method Generate(disk: Disk, site: Site, indexXsl: Path, css: Path) returns (outcome: Outcome, ghost assembled: Fs)
    requires disk.Valid() && Ready(disk.View(), site) && Separate(css, site.output)
    modifies disk
    ensures disk.Valid()
    ensures GeneratedFrom(old(disk.View()), site, indexXsl, css, outcome, assembled, disk.View())
    ensures GeneratedWithin(old(disk.View()), site, indexXsl, assembled, disk.View())
  {
    var passed, failed, crash, reached := AssembleClasses(disk, site);
    assembled := disk.View();
    if crash.Some? {
      return Crashed(crash.value), assembled;
    }
    var index := TransformXml(disk, site.engine, indexXsl, site.input + ["index.xml"], site.output + ["index.html"]);
    if index == Unsaved {
      return Crashed(CannotSave(site.output + ["index.html"])), assembled;
    }
    IndexingConfined(old(disk.View()), assembled, site, indexXsl);
    SeparateFromChild(css, site.output, "css");
    var copied := CopyWholeDirectory(disk, css, site.output + ["css"]);
    assert Within(site.output, site.output + ["css"]);
    ConfinedWidens(old(disk.View()), Indexing(assembled, site, indexXsl).1, disk.View(), site.output, site.output + ["css"]);
    if copied == SourceMissing {
      return Crashed(MissingSource(css)), assembled;
    } else if copied == Collision {
      return Crashed(CopyCollision(site.output + ["css"])), assembled;
    }
    outcome := Completed(passed, failed);
  }

  /**
   * The option handling of Main (Program.cs:157-215): read each option in turn, creating the
   * directories the directory options name, and stop at the first missing requirement.
   */
  method ParseOptions(disk: Disk, args: ArgumentList, host: Host) returns (stop: Option<Outcome>, s: Settings)
    requires disk.Valid()
    modifies disk, args
    ensures disk.Valid()
    ensures (stop, disk.View()) == Prepared(old(disk.View()), ReadSettings(old(args.items), host))
    ensures stop.None? ==> s == ReadSettings(old(args.items), host)
  {
    s := ReadSettings(args.items, host);
    MainOptionsInTurn(args.items);
    var title := args.ParseArgumentValue("-name=", None);
    if title.None? {
      return Some(Aborted(MissingTitle)), s;
    }
    var baseDir, baseMade := ParseArgumentDirectory(disk, args, host, "-basedir=", Some(host.defaultBase));
    if !baseMade {
      return Some(Crashed(CannotCreate(baseDir.value))), s;
    }
    var outputRoot, rootMade := ParseArgumentDirectory(disk, args, host, "-outputdir=", Some(host.currentDir));
    if !rootMade {
      return Some(Crashed(CannotCreate(outputRoot.value))), s;
    }
    var indexXsl := ParseArgumentPath(args, host, "-indexxsl=", Some(baseDir.value + ["xslt", "index_xform.xsl"]));
    var classXsl := ParseArgumentPath(args, host, "-classxsl=", Some(baseDir.value + ["xslt", "class_docs_xform.xsl"]));
    var nodeXsl := ParseArgumentPath(args, host, "-nodexsl=", Some(baseDir.value + ["xslt", "node_docs_xform.xsl"]));
    var fromIntermediate := args.Contains("-fromintermediate");
    if !fromIntermediate {
      return Some(Aborted(NotFromIntermediate)), s;
    }
    var inter, interMade := ParseArgumentDirectory(disk, args, host, "-intermediatedir=", None);
    if !interMade {
      return Some(Crashed(CannotCreate(inter.value))), s;
    }
    if inter.None? {
      return Some(Aborted(MissingIntermediateDir)), s;
    }
    var hardClean := args.Contains("-cleanoutput");
    stop := None;
    s := Settings(title, baseDir.value, outputRoot.value, indexXsl.value, classXsl.value, nodeXsl.value,
                  fromIntermediate, inter, hardClean);
  }

  /**
   * Cleaning and loading (Program.cs:214-253): delete an existing output directory, recursively
   * when `-cleanoutput` was given, then initialize the three transformers.
   */
  method CleanAndLoad(disk: Disk, s: Settings, host: Host, engine: Engine) returns (stop: Option<Outcome>)
    requires disk.Valid() && s.title.Some?
    modifies disk
    ensures disk.Valid()
    ensures (stop, disk.View()) == Cleared(old(disk.View()), s, host, engine)
  {
    var outputDir := OutputDir(s.outputRoot, s.title.value);
    if outputDir in disk.dirs {
      var deleted := disk.Delete(outputDir, s.hardClean, host.releases(outputDir));
      if !deleted {
        return Some(Aborted(OutputNotRemoved));
      }
    }
    if !engine.compiles(s.indexXsl) {
      return Some(Aborted(StylesheetRejected(s.indexXsl)));
    }
    if !engine.compiles(s.classXsl) {
      return Some(Aborted(StylesheetRejected(s.classXsl)));
    }
    if !engine.compiles(s.nodeXsl) {
      return Some(Aborted(StylesheetRejected(s.nodeXsl)));
    }
    stop := None;
  }

  /**
   * Program.Main (Program.cs:147-303) on the argument list `args`. It stops where Setup says,
   * leaving the file system Setup gives; otherwise it generates the site from there.
   */
  method Run(disk: Disk, args: ArgumentList, host: Host, engine: Engine) returns (outcome: Outcome, ghost assembled: Fs)
    requires disk.Valid() && Separated(ReadSettings(args.items, host))
    modifies disk, args
    ensures disk.Valid()
    ensures var s := ReadSettings(old(args.items), host);
      var (stop, start) := Setup(old(disk.View()), s, host, engine);
      && (stop.Some? ==> outcome == stop.value && disk.View() == start)
      && (stop.None? ==> s.title.Some? && s.intermediateDir.Some?)
      && (stop.None? ==> GeneratedFrom(start, SiteOf(s, engine), s.indexXsl, StylesheetsOf(s), outcome, assembled, disk.View()))
      && (stop.None? ==> GeneratedWithin(start, SiteOf(s, engine), s.indexXsl, assembled, disk.View()))
  {
    assembled := disk.View();
    ghost var fs := disk.View();
    var stop, s := ParseOptions(disk, args, host);
    if stop.Some? {
      return stop.value, assembled;
    }
    stop := CleanAndLoad(disk, s, host, engine);
    if stop.Some? {
      return stop.value, assembled;
    }
    var site := SiteOf(s, engine);
    SetupPreparesLoop(fs, s, host, engine);
    outcome, assembled := Generate(disk, site, s.indexXsl, StylesheetsOf(s));
  }

  /**
   * Before the class loop no file is written or changed, and a run that stops there stops
   * with an error message or a directory that cannot be created, never with a report.
   */
  lemma SetupWritesNoFiles(fs: Fs, s: Settings, host: Host, engine: Engine)
    ensures var (stop, start) := Setup(fs, s, host, engine);
      && (forall p | p in start.files :: p in fs.files && start.files[p] == fs.files[p])
      && (stop.Some? ==> stop.value.Aborted? || stop.value.crash.CannotCreate?)
  {
  }

  /**
   * When the setup goes through, the class loop can start: the intermediate directory exists
   * (so the check for it at Program.cs:190-194 never fires), the output directory is gone, and
   * every file outside it is as it was.
   */
  lemma SetupPreparesLoop(fs: Fs, s: Settings, host: Host, engine: Engine)
    requires WellFormed(fs) && Separated(s) && Setup(fs, s, host, engine).0.None?
    ensures s.title.Some? && s.intermediateDir.Some?
    ensures var start := Setup(fs, s, host, engine).1;
      var site := SiteOf(s, engine);
      && Ready(start, site)
      && site.input in start.dirs
      && (forall p | !Within(site.output, p) :: (p in start.files <==> p in fs.files))
      && (forall p | !Within(site.output, p) && p in fs.files :: start.files[p] == fs.files[p])
  {
    var fs1 := WithDirectory(fs, s.baseDir);
    CreateDirectoryKeepsWellFormed(fs, s.baseDir);
    var fs2 := WithDirectory(fs1, s.outputRoot);
    CreateDirectoryKeepsWellFormed(fs1, s.outputRoot);
    var inter := s.intermediateDir.value;
    var fs3 := WithDirectory(fs2, inter);
    CreateDirectoryKeepsWellFormed(fs2, inter);
    assert inter == inter[..|inter|] && inter in fs3.dirs;
    var site := SiteOf(s, engine);
    var start := Setup(fs, s, host, engine).1;
    if site.output in fs3.dirs {
      DeleteKeepsWellFormed(fs3, site.output);
      assert start == Without(fs3, site.output);
      assert !Within(site.output, inter);
    }
    ReadyWithoutOutput(start, site);
  }

  /**
   * Whatever way a run that got past the setup ends, crashed or completed, every file outside
   * the output directory (the intermediate tree and the stylesheets among them) is as it was
   * before Main started.
   */
  lemma RunKeepsOutside(fs: Fs, s: Settings, host: Host, engine: Engine, assembled: Fs, final: Fs)
    requires WellFormed(fs) && Separated(s) && Setup(fs, s, host, engine).0.None?
    requires s.title.Some? && s.intermediateDir.Some?
    requires GeneratedWithin(Setup(fs, s, host, engine).1, SiteOf(s, engine), s.indexXsl, assembled, final)
    ensures var o := SiteOf(s, engine).output;
      && (forall p | !Within(o, p) :: (p in final.files <==> p in fs.files))
      && (forall p | !Within(o, p) && p in fs.files :: final.files[p] == fs.files[p])
  {
    SetupPreparesLoop(fs, s, host, engine);
  }

  /** The node files of the intermediate tree on which the node stylesheet succeeds (`ok`) or fails. */
  ghost function NodeResults(fs: Fs, site: Site, ok: bool): set<Path> {
    set p | p in fs.files && IsNodePath(site, p) && Rendered(fs, site.engine, site.nodeXsl, p).Some? == ok
  }

  /**
   * The node files the loop counts, taken from the tree it starts on, are the node files of any
   * tree that agrees with it outside the output directory.
   */
  lemma NodeResultsAgree(fs: Fs, start: Fs, site: Site)
    requires WellFormed(start) && Separate(site.input, site.output)
    requires forall p | !Within(site.output, p) :: (p in start.files <==> p in fs.files)
    requires forall p | !Within(site.output, p) && p in fs.files :: start.files[p] == fs.files[p]
    ensures Passed(start, site, Classes(start, site)) == NodeResults(fs, site, true)
    ensures Failed(start, site, Classes(start, site)) == NodeResults(fs, site, false)
    ensures |NodeResults(fs, site, true)| + |NodeResults(fs, site, false)| == |set p | p in fs.files && IsNodePath(site, p)|
  {
    forall p | IsNodePath(site, p)
      ensures p in start.files <==> p in fs.files
      ensures p in fs.files ==> Rendered(start, site.engine, site.nodeXsl, p) == Rendered(fs, site.engine, site.nodeXsl, p)
      ensures p in start.files ==> p[|site.input|] in Classes(start, site)
    {
      NodePathAgrees(fs, start, site, p);
    }
    assert (set p | p in fs.files && IsNodePath(site, p)) == NodeResults(fs, site, true) + NodeResults(fs, site, false);
    assert NodeResults(fs, site, true) * NodeResults(fs, site, false) == {};
  }

  /** One node path: it is a file of both trees or of neither, with the same rendering, and it belongs to a class. */
  lemma NodePathAgrees(fs: Fs, start: Fs, site: Site, p: Path)
    requires WellFormed(start) && Separate(site.input, site.output) && IsNodePath(site, p)
    requires forall q | !Within(site.output, q) :: (q in start.files <==> q in fs.files)
    requires forall q | !Within(site.output, q) && q in fs.files :: start.files[q] == fs.files[q]
    ensures p in start.files <==> p in fs.files
    ensures p in fs.files ==> Rendered(start, site.engine, site.nodeXsl, p) == Rendered(fs, site.engine, site.nodeXsl, p)
    ensures p in start.files ==> p[|site.input|] in Classes(start, site)
  {
    assert p[..|site.input|] == site.input;
    InputIsNotOutput(site, p);
    if p in start.files {
      var c, n := p[|site.input|], p[|site.input| + 2];
      assert p == NodesInput(site, c) + [n];
      NodeFileClass(start, site, c, n);
    }
  }

  /**
   * A completed run reports as passed the node files of the original tree whose transform
   * succeeds and as failed those whose transform fails; the class and index transforms do not
   * count.
   */
  lemma CompletedCounts(fs: Fs, s: Settings, host: Host, engine: Engine, outcome: Outcome, assembled: Fs, final: Fs)
    requires WellFormed(fs) && Separated(s) && Setup(fs, s, host, engine).0.None?
    requires s.title.Some? && s.intermediateDir.Some?
    requires GeneratedFrom(Setup(fs, s, host, engine).1, SiteOf(s, engine), s.indexXsl, StylesheetsOf(s), outcome, assembled, final)
    requires outcome.Completed?
    ensures outcome.passed == |NodeResults(fs, SiteOf(s, engine), true)|
    ensures outcome.failed == |NodeResults(fs, SiteOf(s, engine), false)|
    ensures outcome.passed + outcome.failed == |set p | p in fs.files && IsNodePath(SiteOf(s, engine), p)|
  {
    var start, site := Setup(fs, s, host, engine).1, SiteOf(s, engine);
    SetupPreparesLoop(fs, s, host, engine);
    NodeResultsAgree(fs, start, site);
  }

  /**
   * After the class loop, the index transform and the stylesheet copy leave every path alone
   * except the index page and what lies in the `css` directory of the output.
   */
  lemma FinishingKeeps(site: Site, indexXsl: Path, css: Path, assembled: Fs, final: Fs, q: Path)
    requires WellFormed(assembled)
    requires IsCopy(Indexing(assembled, site, indexXsl).1, css, site.output + ["css"], final)
    ensures q in assembled.dirs ==> q in final.dirs
    ensures q != site.output + ["index.html"] && !Within(site.output + ["css"], q) ==>
      && (q in final.files <==> q in assembled.files)
      && (q in final.files ==> final.files[q] == assembled.files[q])
  {
    var indexed := Indexing(assembled, site, indexXsl).1;
    TransformationWritesOnlyOutput(assembled, site.engine, indexXsl, site.input + ["index.xml"], site.output + ["index.html"]);
    CopyAddsOnlyCopies(indexed, css, site.output + ["css"], final, q);
  }

  /** A path below the output directory whose first name is not `css` is untouched by the stylesheet copy. */
  lemma OutsideStylesheets(o: Path, c: Name, r: Path)
    requires c != "css"
    ensures !Within(o + ["css"], o + [c] + r)
  {
    assert (o + [c] + r)[|o|] == c;
  }

  /**
   * In the tree a completed run leaves, node file `C/nodes/T.xml` has the page `C/nodes/T.html`
   * exactly when the node stylesheet succeeds on it, and the page holds the result.
   */
  lemma CompletedNodePage(start: Fs, site: Site, indexXsl: Path, css: Path, outcome: Outcome, assembled: Fs, final: Fs, c: Name, n: Name)
    requires Ready(start, site) && GeneratedFrom(start, site, indexXsl, css, outcome, assembled, final) && outcome.Completed?
    requires NodesInput(site, c) + [n] in start.files && IsXmlName(n) && c != "css"
    ensures var page := NodesOutput(site, c) + [PageName(n)];
      var result := Rendered(start, site.engine, site.nodeXsl, NodesInput(site, c) + [n]);
      && (page in final.files <==> result.Some?)
      && (page in final.files ==> Some(final.files[page]) == result)
  {
    var page := NodesOutput(site, c) + [PageName(n)];
    NodePagePlaced(start, site, assembled, c, n);
    assert page == site.output + [c] + ["nodes", PageName(n)] && |page| > |site.output| + 1;
    OutsideStylesheets(site.output, c, ["nodes", PageName(n)]);
    FinishingKeeps(site, indexXsl, css, assembled, final, page);
  }

  /**
   * In the tree a completed run leaves, every class has its output directory, and the class page
   * `C/C.html` exists exactly when the class has a `nodes` directory and the class stylesheet
   * succeeds on `C/C.xml`.
   */
  lemma CompletedClassPage(start: Fs, site: Site, indexXsl: Path, css: Path, outcome: Outcome, assembled: Fs, final: Fs, c: Name)
    requires GeneratedFrom(start, site, indexXsl, css, outcome, assembled, final) && outcome.Completed?
    requires c in Classes(start, site) && c != "css"
    ensures ClassOutput(site, c) in final.dirs
    ensures var page := ClassOutput(site, c) + [c + ".html"];
      var result := Rendered(start, site.engine, site.classXsl, ClassInput(site, c) + [c + ".xml"]);
      && (page in final.files <==> HasNodes(start, site, c) && result.Some?)
      && (page in final.files ==> Some(final.files[page]) == result)
  {
    var page := ClassOutput(site, c) + [c + ".html"];
    ClassPagePlaced(start, site, assembled, c);
    ClassDirectoryMade(start, site, assembled, c);
    assert page == site.output + [c] + [c + ".html"] && |page| > |site.output| + 1;
    OutsideStylesheets(site.output, c, [c + ".html"]);
    FinishingKeeps(site, indexXsl, css, assembled, final, page);
    FinishingKeeps(site, indexXsl, css, assembled, final, ClassOutput(site, c));
  }

  /** Below `C/img`, the index page and the stylesheet copy leave the assembled tree as it was. */
  lemma ImagesKept(site: Site, indexXsl: Path, css: Path, assembled: Fs, final: Fs, c: Name, r: Path)
    requires WellFormed(assembled)
    requires IsCopy(Indexing(assembled, site, indexXsl).1, css, site.output + ["css"], final)
    requires c != "css"
    ensures var q := ImagesOutput(site, c) + r;
      && (q in final.files <==> q in assembled.files)
      && (q in final.files ==> final.files[q] == assembled.files[q])
      && (q in assembled.dirs ==> q in final.dirs)
  {
    var q := ImagesOutput(site, c) + r;
    assert q == site.output + [c] + (["img"] + r) && |q| > |site.output| + 1;
    OutsideStylesheets(site.output, c, ["img"] + r);
    FinishingKeeps(site, indexXsl, css, assembled, final, q);
  }

  /** In the tree a completed run leaves, `C/img` holds the class's images: the same files with the same contents. */
  lemma CompletedImages(start: Fs, site: Site, indexXsl: Path, css: Path, outcome: Outcome, assembled: Fs, final: Fs, c: Name, r: Path)
    requires GeneratedFrom(start, site, indexXsl, css, outcome, assembled, final) && outcome.Completed?
    requires c in Classes(start, site) && c != "css"
    ensures var q, p := ImagesOutput(site, c) + r, ImagesInput(site, c) + r;
      && (q in final.files <==> r != [] && p in start.files)
      && (q in final.files ==> final.files[q] == start.files[p])
      && (p in start.dirs ==> q in final.dirs)
  {
    ImagesPlaced(start, site, assembled, c, r);
    ImagesKept(site, indexXsl, css, assembled, final, c, r);
  }

  /**
   * In the tree a completed run leaves, `index.html` exists exactly when the index stylesheet
   * succeeds on the intermediate `index.xml`, and holds the result.
   */
  lemma CompletedIndexPage(start: Fs, site: Site, indexXsl: Path, css: Path, outcome: Outcome, assembled: Fs, final: Fs)
    requires Ready(start, site) && GeneratedFrom(start, site, indexXsl, css, outcome, assembled, final) && outcome.Completed?
    ensures var page := site.output + ["index.html"];
      var result := Rendered(start, site.engine, indexXsl, site.input + ["index.xml"]);
      && (page in final.files <==> result.Some?)
      && (page in final.files ==> Some(final.files[page]) == result)
  {
    var page, input := site.output + ["index.html"], site.input + ["index.xml"];
    assert page[..|site.output|] == site.output && page[|site.output| + 1..] == [];
    assert page !in assembled.files;
    assert input[..|site.input|] == site.input;
    RenderedFromStart(start, site, Stage(Classes(start, site), None), assembled, indexXsl, input);
    IndexPageKept(assembled, site, indexXsl, css, final);
  }

  /** The index page written into the assembled tree survives the stylesheet copy unchanged. */
  lemma IndexPageKept(assembled: Fs, site: Site, indexXsl: Path, css: Path, final: Fs)
    requires WellFormed(assembled) && site.output + ["index.html"] !in assembled.files
    requires IsCopy(Indexing(assembled, site, indexXsl).1, css, site.output + ["css"], final)
    ensures var page := site.output + ["index.html"];
      var result := Rendered(assembled, site.engine, indexXsl, site.input + ["index.xml"]);
      && (page in final.files <==> result.Some? && Indexing(assembled, site, indexXsl).0 == Transformed)
      && (page in final.files ==> Some(final.files[page]) == result)
  {
    var page, input := site.output + ["index.html"], site.input + ["index.xml"];
    TransformationWritesOnlyOutput(assembled, site.engine, indexXsl, input, page);
    assert page[|site.output|] != "css";
    CopyAddsOnlyCopies(Indexing(assembled, site, indexXsl).1, css, site.output + ["css"], final, page);
  }

  /** In the tree a completed run leaves, `css` below the output holds every stylesheet file and directory of the source `css` directory. */
  lemma CompletedStylesheets(start: Fs, site: Site, indexXsl: Path, css: Path, outcome: Outcome, assembled: Fs, final: Fs, p: Path)
    requires Ready(start, site) && Separate(css, site.output)
    requires GeneratedFrom(start, site, indexXsl, css, outcome, assembled, final) && outcome.Completed?
    requires StrictlyWithin(css, p)
    ensures p in start.files ==>
      Relocated(css, site.output + ["css"], p) in final.files && final.files[Relocated(css, site.output + ["css"], p)] == start.files[p]
    ensures p in start.dirs ==> Relocated(css, site.output + ["css"], p) in final.dirs
  {
    var st := Stage(Classes(start, site), None);
    var indexed := Indexing(assembled, site, indexXsl).1;
    InputIsNotOutput(site.(input := css), p);
    AssembledOutside(start, site, st, assembled, p);
    TransformationWritesOnlyOutput(assembled, site.engine, indexXsl, site.input + ["index.xml"], site.output + ["index.html"]);
    assert (site.output + ["index.html"])[..|site.output|] == site.output;
    CopyPlacesEverything(indexed, css, site.output + ["css"], final, p);
  }
}
