/**
 * extract_gzip (data.py): the output name of each compressed file and the
 * per-file loop that copies what it can and reports the rest.
 *
 * The directory checks, the listing and the decompression are parameters:
 * whether each directory exists, the names the input directory lists, and
 * for each name what happens when it is decompressed.
 */
module GzipExtract {
  import opened Wrappers

  const GZ := ".gz"

  /** `f` has ".gz" starting at index i. */
  predicate GzAt(f: string, i: int) {
    0 <= i && i + |GZ| <= |f| && f[i..i + |GZ|] == GZ
  }

  ghost predicate ContainsGz(f: string) {
    exists i :: GzAt(f, i)
  }

  /**
   * `f.replace(".gz", "")`: every occurrence of ".gz" removed, scanning left
   * to right, not only a trailing one.
   */
  function OutputName(f: string): (r: string)
    ensures |r| <= |f|
    decreases |f|
  {
    if f == [] then []
    else if GzAt(f, 0) then OutputName(f[|GZ|..])
    else [f[0]] + OutputName(f[1..])
  }

  /**
   * What happens to one listed file: it is copied whole; it fails before the
   * output file is opened (the input cannot be opened, or the output path
   * cannot be written); or it fails while copying, after the output file was
   * created, leaving whatever had been written.
   */
  datatype FileOutcome = Copied(content: seq<bv8>) | FailedBeforeOutput | FailedDuringCopy(partial: seq<bv8>)

  /** The output file is created, whatever happens next. */
  predicate OpensOutput(o: FileOutcome) {
    o.Copied? || o.FailedDuringCopy?
  }

  /** What ends up in the output file, if it is created. */
  function Written(o: FileOutcome): seq<bv8>
    requires OpensOutput(o)
  {
    if o.Copied? then o.content else o.partial
  }

  /**
   * The files of the file system, by path, and the input paths reported as
   * impossible to copy, in the order they were met.
   */
  datatype Extraction = Extraction(files: map<string, seq<bv8>>, failures: seq<string>)

  datatype ExtractError = DirectoryNotFound(dir: string)

  /** The file system after the loop has handled the first n listed files. */
  function Extracted(inDir: string, outDir: string, names: seq<string>, outcomes: seq<FileOutcome>,
                     fs: map<string, seq<bv8>>, n: nat): (r: Extraction)
    requires |outcomes| == |names| && n <= |names|
    decreases n
  {
    if n == 0 then Extraction(fs, [])
    else
      var before := Extracted(inDir, outDir, names, outcomes, fs, n - 1);
      var f := names[n - 1];
      var o := outcomes[n - 1];
      var files := if OpensOutput(o) then before.files[outDir + OutputName(f) := Written(o)] else before.files;
      var failures := if o.Copied? then before.failures else before.failures + [inDir + f];
      Extraction(files, failures)
  }

  /**
   * extract_gzip: give up if either directory is missing (the input
   * directory is checked first), otherwise handle every listed file in
   * order, a failure on one not stopping the next.
   */
  method ExtractGzip(inDir: string, outDir: string, inDirExists: bool, outDirExists: bool,
                     names: seq<string>, outcomes: seq<FileOutcome>, fs: map<string, seq<bv8>>)
    returns (r: Result<Extraction, ExtractError>)
    requires |outcomes| == |names|
    ensures !inDirExists ==> r == Err(DirectoryNotFound(inDir))
    ensures inDirExists && !outDirExists ==> r == Err(DirectoryNotFound(outDir))
    ensures inDirExists && outDirExists ==> r == Ok(Extracted(inDir, outDir, names, outcomes, fs, |names|))
  {
    if !inDirExists {
      return Err(DirectoryNotFound(inDir));
    } else if !outDirExists {
      return Err(DirectoryNotFound(outDir));
    }
    var files := fs;
    var failures := [];
    for i := 0 to |names|
      invariant Extraction(files, failures) == Extracted(inDir, outDir, names, outcomes, fs, i)
    {
      var f := names[i];
      var outfile := OutputName(f);
      match outcomes[i]
      case Copied(content) =>
        files := files[outDir + outfile := content];
      case FailedBeforeOutput =>
        failures := failures + [inDir + f];
      case FailedDuringCopy(partial) =>
        files := files[outDir + outfile := partial];
        failures := failures + [inDir + f];
    }
    return Ok(Extraction(files, failures));
  }
}
