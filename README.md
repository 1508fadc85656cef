# KantanDocGen documentation assembly, modelled in Dafny

KantanDocGen turns an intermediate tree of XML documentation fragments into an HTML site.
The intermediate tree has one `index.xml` and one directory per documented class. A class
directory holds `<Class>.xml`, an optional `nodes/` directory with one XML file per node,
and an optional `img/` directory. `Program.Main` does the work. It reads its options, creates
and cleans directories, and loads three XSLT stylesheets (index, class, node). It then walks
the class directories, writing node pages, class pages and image copies, and counts the node
transforms that succeeded and failed. Last, it writes `index.html` and copies the shared
`css/` directory into the site.

The model follows `Program.cs` member by member, in imperative Dafny:

- `wrappers.dfy`: the `Option` type. A C# `null` string becomes `None`.
- `file_system.dfy`: the file system is a class `Disk`. Its fields are a map from path to file
  contents and a set of directory paths. A path is a sequence of names. Its methods are the
  .NET calls the program makes: `Directory.CreateDirectory`, a whole-file write (`CopyTo` with
  overwrite, saving a document) and `Directory.Delete`. Their contracts give the new contents.
- `transform.dfy`: the transformer (`DocXform`) is an oracle `Engine`. It says whether a
  stylesheet loads and what a stylesheet makes of a document. `TransformXml` reads the
  input, applies the stylesheet and saves the page.
- `arguments.dfy`: the argument list is a class holding a `seq<string>`. `ParseArgumentValue`
  scans it with an index loop and removes the matching element. It is proved against the
  function `Extracted`.
- `directories.dfy`: `SafeCreateDirectory` and the recursive `CopyWholeDirectory`. The copy is
  proved against the relation `IsCopy`: every file and directory below the source reappears at
  the same relative path below the destination, and nothing else changes.
- `assembly.dfy`: the class loop of `Main`. The relation `Assembled(start, site, stage, fs)`
  says, path by path, which files (with which contents) and which directories exist after the
  loop has finished the classes of `stage` and got part way through the current one. Each step
  of the loop is a lemma that moves from one stage to the next. The counters are proved equal
  to the sizes of the sets of node files whose transform succeeds and fails.
- `program.dfy`: the option handling and the preconditions of `Main`, as the ghost function
  `Setup`. Also the code after the loop (index page, `css` copy) and the end-to-end lemmas
  about a completed run.

Enumeration order is not fixed. Each loop picks the next directory or file by an arbitrary
choice (`:|`) from the listing taken when the loop starts. Every contract holds for every order.

Where the code and the intended behaviour of the tool disagree, the model follows the code:

- A class without `img/` ends the run. `CopyWholeDirectory` is called on `img/` without a guard
  (Program.cs:293), and a missing source throws `DirectoryNotFoundException`, which nothing
  catches. `AssembleClasses` states that the loop ends in a crash exactly when some class lacks
  `img/` (or a file blocks the output directory). The intended behaviour is to skip such a class.
- The "intermediate directory not found" abort (Program.cs:190-194) can never fire.
  `ParseArgumentDirectory` creates the directory when it is missing (Program.cs:46-49).
  `SetupPreparesLoop` proves that the directory exists once setup has gone through.
- The output directory is always cleaned (`bCleanOutput` is a constant `true`). Without
  `-cleanoutput` the deletion is not recursive. The deletion fails, and the run stops, exactly
  when it is not recursive and the existing output directory is not empty, or the host refuses
  to let the directory go. Otherwise an existing output directory is deleted, empty or not.
- The stylesheets are loaded after the output directory has been deleted and after the base,
  output-root and intermediate directories have been created. A rejected stylesheet therefore
  stops the run before any file is written, but not before those directory changes.
  `SetupWritesNoFiles` states this.
- `SaxonXform.Initialize` never returns false; a stylesheet that does not compile makes it
  throw. The model follows the `DocXform` contract that `Main` is written against: a rejected
  stylesheet is a `false` return, and `Main` prints an error and returns.
- A run over an intermediate tree without class directories crashes at the index page when the
  index transform succeeds. Only the class loop creates the output directory (Program.cs:264),
  and cleaning has removed it. So the index `Save` at Program.cs:296-297 has no directory to
  write into and throws, and `Generate` yields `Crashed(CannotSave(...))` for the index path.
  When the index transform fails (no `index.xml`, or the stylesheet fails on it), nothing is
  saved. The `css` copy at Program.cs:299 then creates the output directory together with its
  `css` (Program.cs:83-86), and the run completes.
- `Success` and `Failed` count node transforms only. The class and index transforms are
  attempted, but their results never reach the counters.

## Model

| member | source | states |
|---|---|---|
| `Arguments.FirstWithPrefix` | Program.cs:21-23 | the position found holds an argument that starts with the prefix, and no earlier argument does; when nothing is found, no argument starts with the prefix |
| `Arguments.ArgumentList.Contains` | Program.cs:178-215 | `List.Contains` of a flag holds exactly when some position of the argument list holds that exact string |
| `Arguments.ArgumentList.ParseArgumentValue` | Program.cs:19-31 | the index loop returns the suffix of the first argument with the prefix and removes exactly that element, or returns the default and leaves the list alone; the loop invariant says no argument before the index matches |
| `Arguments.Extracted` | Program.cs:19-31 | the list comes back unchanged exactly when no argument starts with the prefix, and then the value is the default; otherwise a value is found and exactly one argument leaves the list |
| `Arguments.ExtractedMatch` | Program.cs:21-28 | with a matching argument at `k` (none before it), the value is that argument minus the prefix; the list shrinks by one; the elements before and after `k` keep their order; exactly one copy of `args[k]` leaves the multiset |
| `Arguments.ExtractedNoMatch` | Program.cs:30 | with no matching argument, the default comes back and the list is unchanged |
| `Arguments.ExtractionsDoNotInterfere` | Program.cs:157-176 | when no argument starts with both prefixes, taking one option out first does not change the value a later search for another option finds, so the order of Main's option reads does not matter |
| `Arguments.ReadPast` | Program.cs:157-183 | when two prefixes differ at a position inside both, no argument matches both, so taking out the argument of the first leaves the value found for the second as it was |
| `Arguments.FlagPast` | Program.cs:178-215 | taking out an option whose prefix differs from a flag never takes the flag, so `Contains` finds the flag exactly when the command line holds it |
| `Arguments.ReadInTurn` | Program.cs:157-176 | reading a list of prefixes one after the other yields one value per prefix and removes at most one argument per read |
| `Arguments.InTurnAsAlone` | Program.cs:157-176 | when a prefix differs from every prefix read before it, reading it in turn finds what reading it first on the whole command line finds |
| `Arguments.InTurnKeeps` | Program.cs:157-183 | a prefix apart from all the prefixes read in turn finds the same value in what is left as in the whole command line |
| `Arguments.InTurnKeepsFlag` | Program.cs:178-215 | a flag apart from all the prefixes read in turn is in what is left exactly when it is on the command line |
| `Arguments.ArgumentList.constructor` | Program.cs:149 | the list holds the command-line arguments in order |
| `FileSystem.Disk.CreateDirectory` | Program.cs:65 | the directory and every missing ancestor are created, unless the path or an ancestor is a file; then nothing changes (the call throws) |
| `FileSystem.Disk.WriteFile` | Program.cs:93 | a file whose directory exists and which is not a directory is written, replacing any earlier contents; otherwise nothing changes |
| `FileSystem.Disk.Delete` | Program.cs:223 | deleting succeeds only for an existing directory that is empty or deleted recursively and that the host releases; the directory and everything inside it disappear; on failure nothing changes |
| `FileSystem.CreateExistingDirectoryIsNoOp` | Program.cs:61-67 | creating a directory that already exists leaves the file system unchanged |
| `Transform.TransformXml` | SaxonXform.cs:35-59 | a missing input or a failed transform returns false and writes nothing; otherwise the rendered page is saved at the output path, or saving throws and nothing changes |
| `Transform.Transformation` | SaxonXform.cs:35-59 | a transform never creates or removes a directory; it is rejected exactly when the input cannot be read or the stylesheet fails on it; a rejected or unsaved transform changes nothing; a successful one needs a writable output path and sets exactly that file to the rendered page |
| `Transform.TransformationWritesOnlyOutput` | SaxonXform.cs:35-59 | a transform changes at most the output file, never a directory or the input; it succeeds exactly when the stylesheet renders the input and the output is writable, and the page holds the rendering |
| `Directories.SafeCreateDirectory` | Program.cs:61-67 | afterwards the directory exists; a directory that already existed leaves the file system unchanged; it fails only when a file blocks the path |
| `Directories.SafeCreateDirectoryIsIdempotent` | Program.cs:61-67 | after one call the directory exists and a second call changes nothing |
| `Directories.CopyWholeDirectory` | Program.cs:69-101 | a missing source fails with nothing changed, before any destination directory is made; otherwise the copy succeeds exactly when no file lands on a directory or the reverse, and the result is the copy relation; writes stay inside the destination |
| `Directories.CopyFiles` | Program.cs:88-94 | every file directly in the source is written at the same name in the destination, overwriting; the loop invariant says which names are done |
| `Directories.CopySubdirectories` | Program.cs:96-100 | after recursing into every subdirectory the whole tree has been copied; it fails exactly when some file and directory collide |
| `Directories.CopyPlacesEverything` | Program.cs:83-100 | every file below the source appears at the same relative path below the destination with the source's contents, every directory likewise, and the destination exists |
| `Directories.CopyAddsOnlyCopies` | Program.cs:88-100 | outside the destination nothing changes; a new file inside it is a copy of a source file; no directory disappears |
| `Directories.PartialCopyKeepsSource` | Program.cs:88-100 | at every point of the copy, the files and directories below the source are as they were |
| `Directories.CopyIsDetermined` | Program.cs:69-101 | the source tree and the destination determine the result of the copy |
| `Directories.CopyIsIdempotent` | Program.cs:69-101 | copying the same tree again over its own result changes nothing |
| `Assembly.PageName` | Program.cs:274-275 | the page of node file `T.xml` is named `T.html`: it keeps the file's title and ends in `.html` |
| `Assembly.PageNameRoundTrip` | Program.cs:274-275 | node file `T.xml` becomes page `T.html`, and the page name gives back the file name, so distinct node files get distinct pages |
| `Assembly.SourceNameRoundTrip` | Program.cs:274-275 | each page name comes from exactly one node file name |
| `Assembly.XmlFileNamesAt` | Program.cs:271 | `XmlFileNames` lists name `n` exactly when `n` ends in `.xml` and is a file directly inside the directory, as `EnumerateFiles(dir, "*.xml", TopDirectoryOnly)` does |
| `Assembly.ClassesAt` | Program.cs:259 | `Classes` holds name `c` exactly when `c` is a directory directly inside the intermediate directory, as `EnumerateDirectories` lists them |
| `Assembly.TransformNode` | Program.cs:274-285 | the page of one node file is written exactly when its transform succeeds; exactly one of the two counters goes up by one, the pass count exactly when the transform succeeds, and both keep counting the passed and failed node files seen so far |
| `Assembly.TransformNodes` | Program.cs:271-286 | after the loop over the enumerated XML files of `nodes`, the class's output `nodes` holds a page for each of them whose transform succeeds and nothing else; `passed` and `failed` are the numbers of those files that pass and fail, and add up to their number; the loop invariant keeps this for the files taken so far |
| `Assembly.DocumentNodes` | Program.cs:267-289 | the output `nodes` directory is created, the node pages are written and counted, then the class page is attempted without touching the counts; the counts are the numbers of the class's node files that pass and fail, and add up to the number of XML files in `nodes` |
| `Assembly.CopyImages` | Program.cs:292-293 | the image copy succeeds exactly when the class has an `img` directory, and then adds the images to the output; when it fails nothing changes, and in every case it changes nothing outside the class's output `img` |
| `Assembly.ProcessClass` | Program.cs:260-294 | one class pass creates the class output directory, documents the nodes only when `nodes` exists, and copies `img`; it crashes exactly when `img` is missing or a file blocks the output; otherwise its counts are those of its own node files; crash or not, the output is what the loop relation gives for the point reached (earlier classes complete, this class complete or part way) and nothing outside the output directory changed |
| `Assembly.AssembleClasses` | Program.cs:255-294 | the class loop crashes exactly when some class cannot be done; otherwise the output holds exactly the pages and images of all classes, and the counters are the numbers of node files that pass and that fail; after a crash the classes finished before it are still complete in the output, and in every case nothing outside the output directory changed |
| `Assembly.PassedOrFailed` | Program.cs:278-285 | each node file is counted as a success or as a failure, never both, so the two counts add up to the number of node files |
| `Assembly.CountsAdd` | Program.cs:256-286 | finishing one more class adds its own node files to each counter, so the counters only grow |
| `Assembly.NoNodesDirectoryNoNodes` | Program.cs:266 | a class without `nodes` contributes nothing to either counter |
| `Assembly.ClassDirectoryMade` | Program.cs:262-264 | every class gets its output directory, with or without nodes |
| `Assembly.NodePagePlaced` | Program.cs:271-285 | node file `C/nodes/T.xml` has the page `C/nodes/T.html` exactly when the node transform succeeds, and the page holds that transform's result |
| `Assembly.ClassPagePlaced` | Program.cs:266-290 | the class page `C/C.html` exists exactly when the class has `nodes` and the class transform succeeds, and it holds that result |
| `Assembly.ImagesPlaced` | Program.cs:293 | below `C/img` the output holds the same files, with the same contents, and the same directories as the class's `img` |
| `Assembly.EveryNodeFileCounted` | Program.cs:256-286 | the counts cover every XML file directly inside some class's `nodes` directory |
| `Program.ReadSettings` | Program.cs:157-215 | the settings Main reads from its arguments; an intermediate directory is read only under `-fromintermediate` |
| `Program.OptionsApart` | Program.cs:157-215 | no two of Main's option prefixes and flags can match the same argument |
| `Program.OptionsReadIndependently` | Program.cs:157-215 | each option read in Main's order has the value its first occurrence on the original command line gives, and each flag is found exactly when the command line holds it |
| `Program.SettingsFromCommandLine` | Program.cs:157-215 | the title, base directory, output root and intermediate directory come from the command line option by option, and `-fromintermediate` and `-cleanoutput` are set exactly when they appear on it |
| `Program.OutputDir` | Program.cs:169 | the output directory lies directly inside the output root and is named by the title; an empty title leaves the output root itself |
| `Program.Prepared` | Program.cs:157-212 | the option handling creates directories but never writes or changes a file; a stop there is an error return or a directory that cannot be created; getting through needs a title, `-fromintermediate` and an intermediate directory |
| `Program.Cleared` | Program.cs:214-253 | cleaning and loading only remove: no file or directory appears and no file changes; a stop is always an error return; it stops at the output directory exactly when that directory exists and cannot be deleted, and then nothing changes; otherwise the output directory is gone and nothing outside it changed; it gets through exactly when the output directory is absent or deletable and all three stylesheets load |
| `Program.Removable` | Program.cs:219-223 | `Directory.Delete` of the output succeeds only on a path other than the root that the host releases; without `-cleanoutput` only a directory holding no file can go |
| `Program.PlainCleanKeepsFiles` | Program.cs:214-230 | without `-cleanoutput` cleaning never deletes a file |
| `Program.Setup` | Program.cs:156-253 | getting through the setup needs a title, `-fromintermediate`, an intermediate directory and three stylesheets that load; a stop there is an error return or a directory that cannot be created |
| `Program.Indexing` | Program.cs:296-297 | the index transform creates or removes no directory; it is rejected exactly when `index.xml` cannot be read or the stylesheet fails on it; when it does not succeed nothing changes, and when it does `index.html` is in the output |
| `Program.ParseArgumentPath` | Program.cs:33-41 | the option's text, resolved to a full path, or the default when the option is absent; the option leaves the list |
| `Program.ParseArgumentDirectory` | Program.cs:43-51 | the option's path, whose directory is created when it is missing; creating it fails only when a file blocks the path |
| `Program.ParseOptions` | Program.cs:157-215 | the options are read in Main's order; the run stops for a missing title, a missing `-fromintermediate`, a missing intermediate directory, or a directory that cannot be created, exactly as the function `Prepared` says |
| `Program.CleanAndLoad` | Program.cs:214-253 | an existing output directory is deleted or the run stops; then the first of the index, class and node stylesheets that fails to load stops the run |
| `Program.Generate` | Program.cs:255-303 | the class loop, then the index page, then the `css` copy; the run completes exactly when the loop succeeds, the index page can be saved and the `css` copy goes through, and then it reports the node counts; whatever the outcome nothing outside the output directory changes, a crash in the loop or at the index save leaves the tree as the loop left it, and the `css` copy writes only into the output's `css` |
| `Program.Run` | Program.cs:147-303 | Main stops with the outcome and file system that `Setup` gives; otherwise it generates the site from the tree `Setup` leaves, and whatever the outcome from there on it changes nothing outside the output directory |
| `Program.RunKeepsOutside` | Program.cs:147-303 | a run that gets past the setup, completed or crashed, leaves every file outside the output directory (the intermediate tree and the stylesheets among them) as it was before Main started |
| `Program.IndexingConfined` | Program.cs:296-297 | the index page is written inside the output directory, so nothing outside it changes |
| `Assembly.AssembledConfined` | Program.cs:255-294 | at every point of the class loop no file outside the output directory has changed or appeared, no directory has gone, and every new directory is the output, one of its ancestors or inside it |
| `Program.SetupWritesNoFiles` | Program.cs:157-253 | before the class loop no file is written or changed, and a stop there is an error return or a directory that cannot be created, never a report |
| `Program.SetupPreparesLoop` | Program.cs:178-231 | when setup goes through, the intermediate directory exists, the output directory is gone, and every file outside it is as it was |
| `Program.CompletedCounts` | Program.cs:256-303 | a completed run reports as successes the node files of the original tree whose transform succeeds and as failures those whose transform fails; their sum is the number of node files; class and index results do not count |
| `Program.CompletedNodePage` | Program.cs:271-285 | for classes other than `css`: in the final site, `C/nodes/T.html` exists exactly when the node transform of `C/nodes/T.xml` succeeds, and holds its result |
| `Program.CompletedClassPage` | Program.cs:262-290 | for classes other than `css`: in the final site every class has its directory, and `C/C.html` exists exactly when the class has `nodes` and its class transform succeeds |
| `Program.CompletedImages` | Program.cs:293 | for classes other than `css`: in the final site `C/img` holds the class's images with their contents |
| `Program.CompletedIndexPage` | Program.cs:296-297 | in the final site `index.html` exists exactly when the index transform of `index.xml` succeeds, and holds its result |
| `Program.CompletedStylesheets` | Program.cs:299 | in the final site `css` holds every file, with its contents, and every directory of the base directory's `css` |

## Left out

- Console output: the argument echo, error messages, `ProcessOutputReceived` and the final
  report lines. The report is the `Completed(passed, failed)` outcome.
- `RunXmlDocGenCommandlet` (Program.cs:105-145) is never called. It launches an external process.
- `MsxslXform.cs` runs an external `msxsl.exe` process. The in-process XSLT engine is not
  modelled either. Both are replaced by the oracle `Engine`: whether a stylesheet loads, and
  what it makes of a document.
- `Path.GetFullPath`, the executable's location and the current directory are inputs (`Host`).
  Path syntax is not modelled: a path is already a sequence of names, so `Path.Combine` is
  concatenation. A title containing separators, or a rooted title, is not modelled.
- Whether the operating system lets a directory be deleted (locks, permissions) is the input
  `Host.releases`. Only the stop on failure is modelled.
- `Assembly.IsXmlName`: the `*.xml` pattern is an exact, case-sensitive `.xml` suffix. .NET also
  matches a different case and longer extensions such as `.xmlx`; those are not modelled.
- `Program.Run`: requires the output directory to lie neither inside nor above the intermediate
  directory, and neither inside nor above the base directory's `css`. These runs are not
  modelled, for four reasons:
  - Output inside the `css` source: the copy's destination `css` then lies two or more levels
    inside its source. The listing of subdirectories (Program.cs:81) is taken before the
    destination is created (Program.cs:85), so each level of the copy enters the destination
    again and the recursion does not end.
  - Output equal to or above the `css` source: cleaning (Program.cs:219-223) deletes the `css`
    source with the output. Depending on where the stylesheets are, the run then stops at a
    stylesheet load or throws `DirectoryNotFoundException` at Program.cs:299; it does not loop.
  - Output inside the intermediate tree: the class loop enumerates and writes into the tree it
    reads, and the output directory itself becomes a class.
  - Output above the intermediate tree: cleaning deletes the intermediate tree.
- `Program.CompletedNodePage`, `Program.CompletedClassPage`, `Program.CompletedImages`: say
  nothing about a class named `css`. The final stylesheet copy writes into the output's `css`
  directory, which is also that class's output directory.
- `Arguments.StartsWith`: .NET's `String.StartsWith(string)` compares under the rules of the
  current culture, where characters that the culture ignores can make an argument match a prefix
  it does not begin with character by character. The model compares ordinally, character by
  character. `ArgumentList.ParseArgumentValue` then cuts the value at the prefix's length, which
  the model also does; the culture-only matches are not modelled.
- `Directories.CopyWholeDirectory`: requires the source and destination to be separate. A
  destination two or more levels inside the source makes the recursion endless: the listing of
  subdirectories (Program.cs:81) is taken before the destination is created (Program.cs:85), so
  every level enters the destination again. A destination at or above the source writes over
  the source tree while the copy still reads it. The copy relation `IsCopy` reads the source
  tree as it was at the start, so it does not describe either case.
- Exceptions other than the ones `Main` can meet through the modelled calls (I/O errors while
  reading, out of memory) are not modelled. A transform's read failure is a `false` return.
- Concurrency: the program is sequential, and so is the model.
