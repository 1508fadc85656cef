/**
 * The XSLT transformer behind DocXform (DocXform.cs:10-14), as Program.cs uses it through
 * SaxonXform. The XSLT processor itself is an oracle: whether a stylesheet compiles, and
 * what applying a compiled stylesheet to a document produces, are inputs to the model.
 */
module Transform {
  import opened Wrappers
  import opened FileSystem

  /**
   * The processor: `compiles(xsl)` says whether Initialize accepts the stylesheet at `xsl`;
   * `apply(xsl, p, doc)` is the result of running that stylesheet on the document `doc`
   * read from `p` (the path gives the base URI), or None when the transformation fails.
   */
  datatype Engine = Engine(compiles: Path -> bool, apply: (Path, Path, Bytes) -> Option<Bytes>)

  /** How TransformXml ends: the page was written, the transform failed (false), or saving the page threw. */
  datatype XformResult = Transformed | Rejected | Unsaved

  /** What stylesheet `xsl` makes of the file at `p`: nothing when the file cannot be read or the transform fails. */
  function Rendered(fs: Fs, engine: Engine, xsl: Path, p: Path): Option<Bytes> {
    if p in fs.files then engine.apply(xsl, p, fs.files[p]) else None
  }

  /**
   * The outcome and the new file system of TransformXml(input, output): a failed read or
   * transform returns false and writes nothing; a successful one saves the page, which
   * throws when `output` cannot be written.
   */
  function Transformation(fs: Fs, engine: Engine, xsl: Path, input: Path, output: Path): (r: (XformResult, Fs))
    ensures r.1.dirs == fs.dirs
    ensures r.0 == Rejected <==> Rendered(fs, engine, xsl, input).None?
    ensures r.0 != Transformed ==> r.1 == fs
    ensures r.0 == Transformed ==> Writable(fs, output) && r.1.files == fs.files[output := Rendered(fs, engine, xsl, input).value]
  {
    match Rendered(fs, engine, xsl, input)
    case None => (Rejected, fs)
    case Some(page) => if Writable(fs, output) then (Transformed, WithFile(fs, output, page)) else (Unsaved, fs)
  }

  /** A transform changes at most the output path, and writes there exactly the rendered page. */
  lemma TransformationWritesOnlyOutput(fs: Fs, engine: Engine, xsl: Path, input: Path, output: Path)
    requires WellFormed(fs)
    ensures var (res, fs') := Transformation(fs, engine, xsl, input, output);
      && WellFormed(fs')
      && fs'.dirs == fs.dirs
      && (forall q | q != output :: (q in fs'.files <==> q in fs.files) && (q in fs.files ==> fs'.files[q] == fs.files[q]))
      && (res == Transformed <==> Rendered(fs, engine, xsl, input).Some? && Writable(fs, output))
      && (res == Transformed ==> output in fs'.files && Some(fs'.files[output]) == Rendered(fs, engine, xsl, input))
      && (res != Transformed ==> fs' == fs)
  {
    if Rendered(fs, engine, xsl, input).Some? && Writable(fs, output) {
      WriteKeepsWellFormed(fs, output, Rendered(fs, engine, xsl, input).value);
    }
  }

  /**
   * SaxonXform.TransformXml: read the input, run the compiled stylesheet, then save the
   * result over the output file.
   */
  method TransformXml(disk: Disk, engine: Engine, xsl: Path, input: Path, output: Path) returns (res: XformResult)
    requires disk.Valid()
    modifies disk
    ensures disk.Valid()
    ensures (res, disk.View()) == Transformation(old(disk.View()), engine, xsl, input, output)
  {
    if input !in disk.files {
      return Rejected;
    }
    var page := engine.apply(xsl, input, disk.files[input]);
    if page.None? {
      return Rejected;
    }
    var saved := disk.WriteFile(output, page.value);
    res := if saved then Transformed else Unsaved;
  }
}
