/** The part of the file system the client reads and writes: a map from path
    to file, and the list of external commands run against it. */
module Files {
  import opened Errors

  /** The permission bits `util.write_file` applies when no mode is given. */
  const DefaultMode: int := 0x1A4 // 0o644

  datatype File = File(content: string, mode: int)

  /** Effects outside the modelled files: key management and downloads. */
  datatype Command =
    | AptKeyReceive(fingerprint: string)
    | AptKeyDelete(fingerprint: string)
    | DownloadFile(url: string, destination: string)

  /** `os.path.basename`: the text after the last `/`. */
  function Basename(path: string): (r: string)
    ensures '/' !in r
    ensures |r| <= |path| && r == path[|path| - |r|..]
    ensures |r| < |path| ==> path[|path| - |r| - 1] == '/'
  {
    if |path| == 0 || path[|path| - 1] == '/' then ""
    else Basename(path[..|path| - 1]) + [path[|path| - 1]]
  }

  /** Where `shutil.copy(source, directory)` puts its copy. */
  function CopyTarget(source: string, directory: string): string
  {
    directory + "/" + Basename(source)
  }

  /** `shutil.copy` into an existing directory: a missing source is
      FileNotFoundError, a source that already is the target is
      SameFileError, and otherwise the target gets the source's content
      and permission bits. */
  function CopyInto(files: map<string, File>, source: string, directory: string): Result<map<string, File>>
  {
    if source !in files then Err(FileNotFoundError(source))
    else if source == CopyTarget(source, directory) then Err(SameFileError(source))
    else Ok(files[CopyTarget(source, directory) := files[source]])
  }

  /** The files and the commands run so far, as one value. */
  datatype Snapshot = Snapshot(files: map<string, File>, commands: seq<Command>)

  class FileSystem {
    var files: map<string, File>
    var commands: seq<Command>

    constructor (initial: map<string, File>)
      ensures files == initial && commands == []
    {
      files := initial;
      commands := [];
    }

    function State(): Snapshot
      reads this
    {
      Snapshot(files, commands)
    }

    predicate Exists(path: string)
      reads this
    {
      path in files
    }

    /** `util.load_file`: the content, or FileNotFoundError. */
    function Load(path: string): (r: Result<string>)
      reads this
      ensures r.Ok? <==> path in files
      ensures r.Ok? ==> r.value == files[path].content
      ensures r.Err? ==> r.error == FileNotFoundError(path)
    {
      if path in files then Ok(files[path].content) else Err(FileNotFoundError(path))
    }

    /** `util.write_file`: creates or replaces the file and sets its mode. */
    method Write(path: string, content: string, mode: int)
      modifies this
      ensures files == old(files)[path := File(content, mode)]
      ensures commands == old(commands)
    {
      files := files[path := File(content, mode)];
    }

    /** `util.del_file`, and `os.unlink` where the file is known to exist. */
    method Delete(path: string)
      modifies this
      ensures files == old(files) - {path}
      ensures commands == old(commands)
    {
      files := files - {path};
    }

    /** `shutil.copy` into a directory. */
    method Copy(source: string, directory: string) returns (r: Outcome)
      modifies this
      ensures var c := CopyInto(old(files), source, directory);
        && (c.Ok? ==> r == Pass && files == c.value)
        && (c.Err? ==> r == Fail(c.error) && files == old(files))
      ensures commands == old(commands)
    {
      var c := CopyInto(files, source, directory);
      if c.Err? {
        return Fail(c.error);
      }
      files := c.value;
      return Pass;
    }

    method Run(c: Command)
      modifies this
      ensures commands == old(commands) + [c]
      ensures files == old(files)
    {
      commands := commands + [c];
    }
  }
}
