/**
 * `extractFile`: the unpacking tool is chosen by the archive's extension
 * alone, as `path.extname` reports it.
 */
module Archives {
  import opened Results
  import opened Errors
  import opened Paths

  /** The two external unpackers the action relies on. */
  datatype Extractor = Unzip | Tar

  /** The program an extractor runs, with its options. */
  function Program(tool: Extractor): string {
    match tool
    case Unzip => "unzip"
    case Tar => "tar xvf"
  }

  /** The shell command an extractor is run with: its program, a space, then the file as the last argument. */
  function CommandLine(tool: Extractor, file: string): (r: string)
    ensures |r| == |Program(tool)| + 1 + |file|
    ensures r[..|Program(tool)| + 1] == Program(tool) + " "
    ensures EndsWith(r, file)
  {
    match tool
    case Unzip => "unzip " + file
    case Tar => "tar xvf " + file
  }

  /**
   * extractFile's decision: ".zip" is unzipped, ".gz" is untarred, and any
   * other extension, the empty one included, is an error naming it.
   */
  function ExtractFile(file: string): (r: Result<string, Error>)
    ensures r.Ok? <==> Extname(file) == ".zip" || Extname(file) == ".gz"
    ensures r.Ok? ==> r.value == CommandLine(if Extname(file) == ".zip" then Unzip else Tar, file)
    ensures r.Err? ==> r.error == UnexpectedExtension(Extname(file))
  {
    var ext := Extname(file);
    if ext == ".zip" then Ok(CommandLine(Unzip, file))
    else if ext == ".gz" then Ok(CommandLine(Tar, file))
    else Err(UnexpectedExtension(ext))
  }
}
