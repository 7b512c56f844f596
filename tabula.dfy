/**
  The `Tabula` wrapper class: its configuration (the extra directories searched for
  `java` and the location of the tabula-java jar) and `parse`, which validates a batch
  conversion request, runs `java -jar <jar> -f <FORMAT> -b <target>` and moves the
  produced files into the output directory.

  The host is abstract: `is_dir`, the search for a `java` executable, the process run
  and the directory listing after the run are the fields of a `Host` value.
 */
module TabulaWrapper {
  import opened PhpStrings

  /** Location of the bundled jar relative to the directory holding the class file. */
  const BundledJar := "/../../../lib/tabula-1.0.4-jar-with-dependencies.jar"

  /** What the constructor may receive: nothing (`null`), one directory, or a list of them. */
  datatype BinDirArg = NoBinDir | OneDir(dir: string) | DirList(dirs: seq<string>)

  /**
    PHP truthiness of the constructor argument: `null`, a falsy string and the empty list
    are falsy; any other string or list is truthy.
   */
  predicate BinDirArgTruthy(a: BinDirArg)
    ensures a.NoBinDir? ==> !BinDirArgTruthy(a)
    ensures a.OneDir? && |a.dir| >= 2 ==> BinDirArgTruthy(a)
    ensures BinDirArgTruthy(a) && a.OneDir? ==> |a.dir| >= 1
    ensures BinDirArgTruthy(a) && a.DirList? ==> |a.dirs| >= 1
  {
    match a
    case NoBinDir => false
    case OneDir(d) => Truthy(d)
    case DirList(ds) => ds != []
  }

  /** One file of the recursive listing of the target directory: its directory and basename. */
  datatype FileEntry = FileEntry(dir: string, name: string)

  /** One `File::move(source, destination)`. */
  datatype Move = Move(source: string, destination: string)

  /**
    How the tabula-java process ends: exit status zero, a non-zero exit status with its
    error output, the Symfony default timeout exceeded, the process not launched at all,
    or the process killed by a signal that Symfony did not send.
   */
  datatype ProcessOutcome =
    | Succeeded
    | Failed(errorOutput: string)
    | TimedOut
    | NotStarted
    | Signaled(signal: nat)

  /** The timeout, in seconds, that a Symfony `Process` gets when none is given. */
  const DefaultTimeoutSeconds: nat := 60

  /** What `parse` observes of the machine it runs on. */
  datatype Host = Host(
    directories: set<string>,     // the paths for which `is_dir` holds
    searchPath: seq<string>,      // the directories listed in PATH, in order
    javaDirs: set<string>,        // the directories holding an executable named `java`
    run: ProcessOutcome,          // how the tabula-java process ends once `java` is started
    javaMissingError: string,     // the error output of the run when PATH holds no `java`
    targetFiles: seq<FileEntry>)  // `File::allFiles` of the target once the process has ended

  /** `is_dir(path)`: false for the empty path (and so for `null`), otherwise the host decides. */
  predicate IsDir(host: Host, path: string)
    ensures path == "" ==> !IsDir(host, path)
    ensures IsDir(host, path) ==> path in host.directories
  {
    path != "" && path in host.directories
  }

  /**
    How the run ends. The command names the bare `java`, which the system looks up on
    PATH only; when PATH holds none, the run fails with the host's "not found" output.
   */
  function ShellRun(host: Host): (o: ProcessOutcome)
    ensures (exists i :: 0 <= i < |host.searchPath| && host.searchPath[i] in host.javaDirs) ==>
              o == host.run
    ensures (forall i :: 0 <= i < |host.searchPath| ==> host.searchPath[i] !in host.javaDirs) ==>
              o == Failed(host.javaMissingError)
  {
    if FindJava(host.searchPath, host.javaDirs).Some? then host.run else Failed(host.javaMissingError)
  }

  /** The checks `parse` makes before it starts a process, in the order it makes them. */
  datatype ParseError = EmptyFormat | InvalidFormat | TargetNotFound | OutputNotFound | JavaNotFound

  /** The exceptions `parse` throws, with their messages. */
  datatype Exception =
    | InvalidArgumentException(message: string)
    | RuntimeException(message: string)
    | ProcessTimedOutException(timeoutSeconds: nat)
    | ProcessSignaledException(signal: nat)

  /** The outcome of one call of `parse`. */
  datatype ParseResult =
    | Rejected(error: ParseError)                               // thrown before any process runs
    | ProcessFailed(arguments: seq<string>, errorOutput: string) // the process ran and failed
    | ProcessTimedOut(arguments: seq<string>)                    // the process exceeded its timeout
    | ProcessNotStarted(arguments: seq<string>)                  // the process could not be launched
    | ProcessSignaled(arguments: seq<string>, signal: nat)        // the process was killed by a signal
    | Completed(arguments: seq<string>, moves: seq<Move>)        // the process ran; the files moved

  /** The exception each failed check throws: only a missing `java` is a runtime error. */
  function ErrorException(e: ParseError): (x: Exception)
    ensures x.InvalidArgumentException? <==> e != JavaNotFound
    ensures x.RuntimeException? <==> e == JavaNotFound
  {
    match e
    case EmptyFormat => InvalidArgumentException("Convert format does not exist.")
    case InvalidFormat => InvalidArgumentException("Invalid Format. ex) CSV, TSV, JSON")
    case TargetNotFound => InvalidArgumentException("Folder to target Pdf does not exist.")
    case OutputNotFound => InvalidArgumentException("Folder to output Pdf does not exist.")
    case JavaNotFound => RuntimeException("Could not find java on your system.")
  }

  /** The exception a call ends with, if any. */
  function Thrown(r: ParseResult): (x: Option<Exception>)
    ensures x.None? <==> r.Completed?
    ensures r.ProcessFailed? ==> x == Some(RuntimeException(r.errorOutput))
  {
    match r
    case Rejected(e) => Some(ErrorException(e))
    case ProcessFailed(_, err) => Some(RuntimeException(err))
    case ProcessTimedOut(_) => Some(ProcessTimedOutException(DefaultTimeoutSeconds))
    case ProcessNotStarted(_) => Some(RuntimeException("Unable to launch a new process."))
    case ProcessSignaled(_, sig) => Some(ProcessSignaledException(sig))
    case Completed(_, _) => None
  }

  /** The uppercased format names `parse` accepts. */
  predicate IsFormatName(f: string)
    ensures IsFormatName(f) ==> 3 <= |f| <= 4 && forall i :: 0 <= i < |f| ==> UpperChar(f[i]) == f[i]
  {
    f == "CSV" || f == "TSV" || f == "JSON"
  }

  /** The directory normalisation of `parse`: one trailing `/` is removed with `Str::replaceLast`. */
  function StripTrailingSlash(s: string): (r: string)
    ensures |s| > 0 && s[|s| - 1] == '/' ==> r == s[..|s| - 1] && r + "/" == s
    ensures !(|s| > 0 && s[|s| - 1] == '/') ==> r == s
  {
    if EndsWith(s, "/") then
      ReplaceLastOfSuffix("/", "", s);
      ReplaceLast("/", "", s)
    else s
  }

  /** The guarded `Str::replaceLast('/', '', ...)` that `parse` applies to both directories. */
  method DropTrailingSlash(s: string) returns (r: string)
    ensures r == StripTrailingSlash(s)
  {
    r := s;
    if EndsWith(r, "/") {
      r := ReplaceLast("/", "", r);
    }
  }

  /**
    The search for `java` over PATH followed by the configured extra directories:
    the first directory holding it gives the binary's path, and none gives nothing.
   */
  function FindJava(dirs: seq<string>, javaDirs: set<string>): (r: Option<string>)
    ensures r.None? <==> forall i :: 0 <= i < |dirs| ==> dirs[i] !in javaDirs
    ensures r.Some? ==>
      exists i :: 0 <= i < |dirs| && dirs[i] in javaDirs && r.value == dirs[i] + "/java" &&
        forall j :: 0 <= j < i ==> dirs[j] !in javaDirs
  {
    if dirs == [] then None
    else if dirs[0] in javaDirs then Some(dirs[0] + "/java")
    else
      var rest := dirs[1..];
      var r := FindJava(rest, javaDirs);
      assert forall j :: 0 <= j < |rest| ==> rest[j] == dirs[j + 1];
      assert r.Some? ==>
        exists i ::
          && 0 < i < |dirs| && dirs[i] in javaDirs && r.value == dirs[i] + "/java"
          && forall j :: 0 <= j < i ==> dirs[j] !in javaDirs;
      r
  }

  /** The file extension `parse` selects for an (uppercased) format. */
  function Extension(format: string): (r: string)
    ensures |r| == |format| + 1 && r[0] == '.'
    ensures forall i :: 0 <= i < |format| ==> r[i + 1] == LowerChar(format[i])
  {
    "." + ToLower(format)
  }

  /** The move `parse` performs for one listed file. */
  function MoveOf(f: FileEntry, output: string): (m: Move)
    ensures |m.source| == |f.dir| + 1 + |f.name| && |m.destination| == |output| + 1 + |f.name|
    ensures m.source[|f.dir|] == '/' && m.destination[|output|] == '/'
  {
    Move(f.dir + "/" + f.name, output + "/" + f.name)
  }

  /** The moves of the listed files whose basename ends with `ext`, in listing order. */
  function SelectMoves(files: seq<FileEntry>, output: string, ext: string): (r: seq<Move>)
    ensures |r| <= |files|
    ensures forall m :: m in r ==>
      exists f :: f in files && EndsWith(f.name, ext) && m == MoveOf(f, output)
  {
    if files == [] then []
    else
      var init, last := files[..|files| - 1], files[|files| - 1];
      var r := SelectMoves(init, output, ext);
      assert forall f :: f in init ==> f in files;
      r + (if EndsWith(last.name, ext) then [MoveOf(last, output)] else [])
  }

  /**
    The loop at the end of `parse`: every listed file whose basename ends with `ext`
    is moved to `output/<basename>`, in listing order.
   */
  method MoveFiles(files: seq<FileEntry>, output: string, ext: string) returns (moves: seq<Move>)
    ensures moves == SelectMoves(files, output, ext)
  {
    moves := [];
    var i := 0;
    while i < |files|
      invariant 0 <= i <= |files|
      invariant moves == SelectMoves(files[..i], output, ext)
    {
      var basename := files[i].name;
      if EndsWith(basename, ext) {
        moves := moves + [Move(files[i].dir + "/" + basename, output + "/" + basename)];
      }
      assert files[..i + 1][..i] == files[..i];
      i := i + 1;
    }
    assert files[..i] == files;
  }

  /** The command `parse` hands to the process: the literal `java`, the jar, then its flags. */
  function Arguments(jar: string, format: string, target: string): (r: seq<string>)
    ensures r == ["java", "-jar", jar, "-f", format, "-b", target]
  {
    ["java", "-jar", jar] + (["-f", format] + ["-b", target])
  }

  /** The first of the checks `parse` makes before running anything that fails, if any. */
  function FirstFailedCheck(binDir: seq<string>, format: string, target: string, output: string,
                            host: Host): (r: Option<ParseError>)
    ensures r.None? ==> IsFormatName(ToUpper(format)) && IsDir(host, target) && IsDir(host, output)
    ensures r.None? ==> FindJava(host.searchPath + binDir, host.javaDirs).Some?
  {
    if !Truthy(format) then Some(EmptyFormat)
    else if !IsFormatName(ToUpper(format)) then Some(InvalidFormat)
    else if !IsDir(host, target) then Some(TargetNotFound)
    else if !IsDir(host, output) then Some(OutputNotFound)
    else if FindJava(host.searchPath + binDir, host.javaDirs).None? then Some(JavaNotFound)
    else None
  }

  /**
    What follows the start of the process: its end, then, after a success, the moves
    into the (already stripped) output directory when that is truthy.
   */
  function AfterRun(arguments: seq<string>, outcome: ProcessOutcome, out: string, ext: string,
                    files: seq<FileEntry>): (r: ParseResult)
    ensures !r.Rejected? && r.arguments == arguments
    ensures r.Completed? <==> outcome.Succeeded?
    ensures r.Completed? ==> |r.moves| <= |files|
  {
    match outcome
    case Failed(err) => ProcessFailed(arguments, err)
    case TimedOut => ProcessTimedOut(arguments)
    case NotStarted => ProcessNotStarted(arguments)
    case Signaled(sig) => ProcessSignaled(arguments, sig)
    case Succeeded => Completed(arguments, if Truthy(out) then SelectMoves(files, out, ext) else [])
  }

  /** The end of `parse`: throw on an unsuccessful run, otherwise move the matching files. */
  method FinishRun(arguments: seq<string>, outcome: ProcessOutcome, out: string, ext: string,
                   files: seq<FileEntry>) returns (r: ParseResult)
    ensures r == AfterRun(arguments, outcome, out, ext, files)
  {
    match outcome {
      case Failed(err) => return ProcessFailed(arguments, err);
      case TimedOut => return ProcessTimedOut(arguments);
      case NotStarted => return ProcessNotStarted(arguments);
      case Signaled(sig) => return ProcessSignaled(arguments, sig);
      case Succeeded =>
    }
    var moves: seq<Move> := [];
    if Truthy(out) {
      moves := MoveFiles(files, out, ext);
    }
    return Completed(arguments, moves);
  }

  /** What `parse` does, given the object's configuration, its arguments and the host. */
  function ParseSpec(jar: string, binDir: seq<string>, format: string, target: string,
                     output: string, host: Host): (r: ParseResult)
    ensures r.Rejected? <==> FirstFailedCheck(binDir, format, target, output, host).Some?
    ensures !r.Rejected? ==> |r.arguments| == 7 && r.arguments[..3] == ["java", "-jar", jar]
    ensures r.Completed? ==> |r.moves| <= |host.targetFiles|
  {
    match FirstFailedCheck(binDir, format, target, output, host)
    case Some(e) => Rejected(e)
    case None =>
      AfterRun(Arguments(jar, ToUpper(format), StripTrailingSlash(target)), ShellRun(host),
               StripTrailingSlash(output), Extension(ToUpper(format)), host.targetFiles)
  }

  /**
    `parse` as its `binDir` option evidently means it to work: the process is started
    with the `java` binary the search found, so its run is the host's own run.
   */
  function ParseSpecRunningFoundJava(jar: string, binDir: seq<string>, format: string,
                                     target: string, output: string, host: Host): (r: ParseResult)
    ensures r.Rejected? <==> FirstFailedCheck(binDir, format, target, output, host).Some?
    ensures !r.Rejected? ==>
      r.arguments == [FindJava(host.searchPath + binDir, host.javaDirs).value] +
                     Arguments(jar, ToUpper(format), StripTrailingSlash(target))[1..]
    ensures !r.Rejected? ==> (r.Completed? <==> host.run == Succeeded)
  {
    match FirstFailedCheck(binDir, format, target, output, host)
    case Some(e) => Rejected(e)
    case None =>
      var binary := FindJava(host.searchPath + binDir, host.javaDirs).value;
      AfterRun([binary] + Arguments(jar, ToUpper(format), StripTrailingSlash(target))[1..],
               host.run, StripTrailingSlash(output), Extension(ToUpper(format)), host.targetFiles)
  }

  class Tabula {
    /** Additional directories searched for the `java` executable. */
    var binDir: seq<string>
    /** Path to the tabula-java jar. */
    var jarArchive: string

    /**
      `classDir` stands for the directory of the class file, which the default jar
      path is relative to.
     */
    constructor (classDir: string, arg: BinDirArg)
      ensures jarArchive == classDir + BundledJar
      ensures arg.NoBinDir? ==> binDir == []
      ensures arg.OneDir? ==> binDir == (if Truthy(arg.dir) then [arg.dir] else [])
      ensures arg.DirList? ==> binDir == arg.dirs
    {
      binDir := [];
      jarArchive := classDir + BundledJar;
      if BinDirArgTruthy(arg) {
        binDir := if arg.DirList? then arg.dirs else [arg.dir];
      }
    }

    method GetJarArchive() returns (j: string)
      ensures j == jarArchive
    {
      j := jarArchive;
    }

    method SetJarArchive(j: string)
      modifies this
      ensures jarArchive == j && binDir == old(binDir)
    {
      jarArchive := j;
    }

    method GetBinDir() returns (d: seq<string>)
      ensures d == binDir
    {
      d := binDir;
    }

    method SetBinDir(d: seq<string>)
      modifies this
      ensures binDir == d && jarArchive == old(jarArchive)
    {
      binDir := d;
    }

    /**
      Validates the request, runs tabula-java in batch mode on `target` and moves every
      produced file of the requested format into `output`.
     */
    method Parse(format: string, target: string, output: string, host: Host) returns (r: ParseResult)
      ensures r == ParseSpec(jarArchive, binDir, format, target, output, host)
    {
      var parameters: seq<string> := [];
      if !Truthy(format) {
        return Rejected(EmptyFormat);
      }
      var fmt := ToUpper(format);
      if fmt == "CSV" || fmt == "TSV" || fmt == "JSON" {
        parameters := parameters + ["-f", fmt];
      } else {
        return Rejected(InvalidFormat);
      }
      if !IsDir(host, target) {
        return Rejected(TargetNotFound);
      }
      var dir := DropTrailingSlash(target);
      parameters := parameters + ["-b", dir];
      if !IsDir(host, output) {
        return Rejected(OutputNotFound);
      }
      var out := DropTrailingSlash(output);
      var binary := FindJava(host.searchPath + binDir, host.javaDirs);
      if binary.None? {
        return Rejected(JavaNotFound);
      }
      var jar := GetJarArchive();
      var arguments := ["java", "-jar", jar] + parameters;
      assert arguments == Arguments(jarArchive, ToUpper(format), StripTrailingSlash(target));
      assert FirstFailedCheck(binDir, format, target, output, host).None?;
      ghost var spec := ParseSpec(jarArchive, binDir, format, target, output, host);
      assert spec == AfterRun(arguments, ShellRun(host), out, Extension(fmt), host.targetFiles);
      r := FinishRun(arguments, ShellRun(host), out, "." + ToLower(fmt), host.targetFiles);
    }
  }
}
