/**
  What `parse` and the configuration accessors of the `Tabula` class promise, stated
  over `ParseSpec` (which `Tabula.Parse` is proved to compute) and the class itself.
 */
module TabulaProperties {
  import opened PhpStrings
  import opened TabulaWrapper

  /** Two strings are equal up to ASCII case: an independent reading of "case-insensitive". */
  predicate CaseInsensitiveEquals(a: string, b: string) {
    |a| == |b| && forall i :: 0 <= i < |a| ==> UpperChar(a[i]) == UpperChar(b[i])
  }

  /** The formats `parse` is meant to take: CSV, TSV or JSON in any letter case. */
  predicate AcceptedFormat(format: string) {
    CaseInsensitiveEquals(format, "CSV") || CaseInsensitiveEquals(format, "TSV") ||
    CaseInsensitiveEquals(format, "JSON")
  }

  /** Some directory of the search list holds `java`. */
  predicate JavaAvailable(dirs: seq<string>, javaDirs: set<string>) {
    exists i :: 0 <= i < |dirs| && dirs[i] in javaDirs
  }

  /** Every check `parse` makes before starting the process passes. */
  predicate RequestValid(binDir: seq<string>, format: string, target: string, output: string,
                         host: Host) {
    AcceptedFormat(format) && IsDir(host, target) && IsDir(host, output) &&
    JavaAvailable(host.searchPath + binDir, host.javaDirs)
  }

  /** Uppercasing yields an all-uppercase `name` exactly when the string equals it up to case. */
  lemma ToUpperEqualsIff(s: string, name: string)
    requires forall i :: 0 <= i < |name| ==> UpperChar(name[i]) == name[i]
    ensures ToUpper(s) == name <==> CaseInsensitiveEquals(s, name)
  {
    if CaseInsensitiveEquals(s, name) {
      assert forall i :: 0 <= i < |s| ==> ToUpper(s)[i] == name[i];
    }
  }

  /** The format check of `parse` accepts exactly CSV, TSV and JSON in any letter case. */
  lemma FormatNameIff(format: string)
    ensures IsFormatName(ToUpper(format)) <==> AcceptedFormat(format)
    ensures AcceptedFormat(format) ==> Truthy(format)
  {
    ToUpperEqualsIff(format, "CSV");
    ToUpperEqualsIff(format, "TSV");
    ToUpperEqualsIff(format, "JSON");
  }

  /** The lower-case extension `parse` selects for each accepted format. */
  lemma ExtensionOfFormat(format: string)
    ensures CaseInsensitiveEquals(format, "CSV") ==> Extension(ToUpper(format)) == ".csv"
    ensures CaseInsensitiveEquals(format, "TSV") ==> Extension(ToUpper(format)) == ".tsv"
    ensures CaseInsensitiveEquals(format, "JSON") ==> Extension(ToUpper(format)) == ".json"
  {
    ExtensionNames();
    if CaseInsensitiveEquals(format, "CSV") {
      ToUpperEqualsIff(format, "CSV");
      assert ToUpper(format) == "CSV";
    }
    if CaseInsensitiveEquals(format, "TSV") {
      ToUpperEqualsIff(format, "TSV");
      assert ToUpper(format) == "TSV";
    }
    if CaseInsensitiveEquals(format, "JSON") {
      ToUpperEqualsIff(format, "JSON");
      assert ToUpper(format) == "JSON";
    }
  }

  /** The extensions of the three format names. */
  lemma ExtensionNames()
    ensures Extension("CSV") == ".csv" && Extension("TSV") == ".tsv" && Extension("JSON") == ".json"
  {
    assert Extension("CSV") == ".csv" by {
      assert LowerChar('C') == 'c' && LowerChar('S') == 's' && LowerChar('V') == 'v';
    }
    assert Extension("TSV") == ".tsv" by {
      assert LowerChar('T') == 't' && LowerChar('S') == 's' && LowerChar('V') == 'v';
    }
    assert Extension("JSON") == ".json" by {
      assert LowerChar('J') == 'j' && LowerChar('S') == 's' && LowerChar('O') == 'o';
      assert LowerChar('N') == 'n';
    }
  }

  /** An empty format is refused before anything else is looked at. */
  lemma EmptyFormatFirst(jar: string, binDir: seq<string>, format: string, target: string,
                         output: string, host: Host)
    requires !Truthy(format)
    ensures ParseSpec(jar, binDir, format, target, output, host) == Rejected(EmptyFormat)
    ensures Thrown(ParseSpec(jar, binDir, format, target, output, host))
            == Some(InvalidArgumentException("Convert format does not exist."))
  {
  }

  /**
    The checks fail in a fixed order: empty format, invalid format, missing target
    directory, missing output directory, no `java`; and the call is rejected exactly
    when one of them fails.
   */
  lemma ErrorPrecedence(jar: string, binDir: seq<string>, format: string, target: string,
                        output: string, host: Host)
    ensures var r := ParseSpec(jar, binDir, format, target, output, host);
      && (r == Rejected(EmptyFormat) <==> !Truthy(format))
      && (r == Rejected(InvalidFormat) <==> Truthy(format) && !AcceptedFormat(format))
      && (r == Rejected(TargetNotFound) <==> AcceptedFormat(format) && !IsDir(host, target))
      && (r == Rejected(OutputNotFound) <==>
            AcceptedFormat(format) && IsDir(host, target) && !IsDir(host, output))
      && (r == Rejected(JavaNotFound) <==>
            AcceptedFormat(format) && IsDir(host, target) && IsDir(host, output) &&
            !JavaAvailable(host.searchPath + binDir, host.javaDirs))
      && (r.Rejected? <==> !RequestValid(binDir, format, target, output, host))
  {
    FormatNameIff(format);
  }

  /** The empty path is never a directory, so `null` or `""` is refused as a missing target. */
  lemma EmptyTargetRefused(jar: string, binDir: seq<string>, format: string, output: string,
                           host: Host)
    requires AcceptedFormat(format)
    ensures ParseSpec(jar, binDir, format, "", output, host) == Rejected(TargetNotFound)
  {
    FormatNameIff(format);
  }

  /** A rejected call starts no process and moves nothing: the process and listing play no part. */
  lemma RejectionRunsNothing(jar: string, binDir: seq<string>, format: string, target: string,
                             output: string, host: Host, run: ProcessOutcome, missing: string,
                             files: seq<FileEntry>)
    requires ParseSpec(jar, binDir, format, target, output, host).Rejected?
    ensures ParseSpec(jar, binDir, format, target, output,
                      host.(run := run, javaMissingError := missing, targetFiles := files))
            == ParseSpec(jar, binDir, format, target, output, host)
  {
  }

  /** A request that passes every check goes on to run the process and handle its end. */
  lemma ValidRequestRuns(jar: string, binDir: seq<string>, format: string, target: string,
                         output: string, host: Host)
    requires RequestValid(binDir, format, target, output, host)
    ensures ParseSpec(jar, binDir, format, target, output, host)
            == AfterRun(Arguments(jar, ToUpper(format), StripTrailingSlash(target)), ShellRun(host),
                        StripTrailingSlash(output), Extension(ToUpper(format)), host.targetFiles)
    ensures IsFormatName(ToUpper(format))
  {
    FormatNameIff(format);
    assert FindJava(host.searchPath + binDir, host.javaDirs).Some?;
  }

  /**
    Once the checks pass, the process is given exactly
    `java -jar <jar> -f <FORMAT> -b <target without its trailing slash>`.
   */
  lemma CommandLine(jar: string, binDir: seq<string>, format: string, target: string,
                    output: string, host: Host)
    requires RequestValid(binDir, format, target, output, host)
    ensures var r := ParseSpec(jar, binDir, format, target, output, host);
      && !r.Rejected?
      && r.arguments == ["java", "-jar", jar, "-f", ToUpper(format), "-b", StripTrailingSlash(target)]
      && IsFormatName(r.arguments[4])
  {
    ValidRequestRuns(jar, binDir, format, target, output, host);
  }

  /**
    The path of the `java` that the search found is never used: the command starts with
    the literal `java`. Once `java` is found somewhere, the search and `binDir` matter
    only through how the bare `java` then runs.
   */
  lemma JavaLocationIrrelevant(jar: string, binDir: seq<string>, binDir': seq<string>,
                               format: string, target: string, output: string, host: Host,
                               searchPath': seq<string>, javaDirs': set<string>)
    requires JavaAvailable(host.searchPath + binDir, host.javaDirs)
    requires JavaAvailable(searchPath' + binDir', javaDirs')
    requires ShellRun(host.(searchPath := searchPath', javaDirs := javaDirs')) == ShellRun(host)
    ensures ParseSpec(jar, binDir, format, target, output, host)
            == ParseSpec(jar, binDir', format, target, output,
                         host.(searchPath := searchPath', javaDirs := javaDirs'))
  {
  }

  /**
    As written, a `java` that only a `binDir` directory holds passes the search, but the
    bare `java` of the command is looked up on PATH alone: the run fails with the
    "not found" output even when the found binary would have succeeded. Running the
    binary the search found makes the same request complete.
   */
  lemma BinDirJavaNeverRuns(jar: string, binDir: seq<string>, format: string, target: string,
                            output: string, host: Host)
    requires RequestValid(binDir, format, target, output, host)
    requires !JavaAvailable(host.searchPath, host.javaDirs)
    ensures ParseSpec(jar, binDir, format, target, output, host)
            == ProcessFailed(Arguments(jar, ToUpper(format), StripTrailingSlash(target)),
                             host.javaMissingError)
    ensures host.run == Succeeded ==>
              ParseSpecRunningFoundJava(jar, binDir, format, target, output, host).Completed?
  {
    ValidRequestRuns(jar, binDir, format, target, output, host);
  }

  /**
    A concrete case: `java` lives only in the configured `/opt/jdk/bin`, PATH is `/usr/bin`.
    As written the call fails with the shell's "not found" output; the corrected call completes.
   */
  lemma ExampleBinDirJava()
    ensures var host := Host({"in", "out"}, ["/usr/bin"], {"/opt/jdk/bin"}, Succeeded,
                             "sh: 1: exec: java: not found", []);
      && ParseSpec("t.jar", ["/opt/jdk/bin"], "CSV", "in", "out", host).ProcessFailed?
      && ParseSpecRunningFoundJava("t.jar", ["/opt/jdk/bin"], "CSV", "in", "out", host).Completed?
  {
    var host := Host({"in", "out"}, ["/usr/bin"], {"/opt/jdk/bin"}, Succeeded,
                     "sh: 1: exec: java: not found", []);
    assert ToUpper("CSV") == "CSV" by {
      assert UpperChar('C') == 'C' && UpperChar('S') == 'S' && UpperChar('V') == 'V';
    }
    assert AcceptedFormat("CSV");
    assert JavaAvailable(host.searchPath + ["/opt/jdk/bin"], host.javaDirs) by {
      assert (host.searchPath + ["/opt/jdk/bin"])[1] == "/opt/jdk/bin";
    }
    assert !JavaAvailable(host.searchPath, host.javaDirs);
    BinDirJavaNeverRuns("t.jar", ["/opt/jdk/bin"], "CSV", "in", "out", host);
  }

  /** When PATH itself holds `java`, the corrected `parse` ends as the written one does. */
  lemma FoundJavaAgreesOnPath(jar: string, binDir: seq<string>, format: string, target: string,
                              output: string, host: Host)
    requires JavaAvailable(host.searchPath, host.javaDirs)
    ensures var r := ParseSpec(jar, binDir, format, target, output, host);
      var c := ParseSpecRunningFoundJava(jar, binDir, format, target, output, host);
      && r.Rejected? == c.Rejected?
      && (r.Rejected? ==> r == c)
      && (!r.Rejected? ==> r.arguments[1..] == c.arguments[1..] && r.(arguments := c.arguments) == c)
  {
    var r := ParseSpec(jar, binDir, format, target, output, host);
    var c := ParseSpecRunningFoundJava(jar, binDir, format, target, output, host);
    if !r.Rejected? {
      var args := Arguments(jar, ToUpper(format), StripTrailingSlash(target));
      assert c.arguments[1..] == args[1..];
    }
  }

  /** A failed process ends the call with its error output, verbatim, and nothing is moved. */
  lemma ProcessFailureVerbatim(jar: string, binDir: seq<string>, format: string, target: string,
                               output: string, host: Host, err: string)
    requires RequestValid(binDir, format, target, output, host)
    requires ShellRun(host) == Failed(err)
    ensures var r := ParseSpec(jar, binDir, format, target, output, host);
      && r == ProcessFailed(Arguments(jar, ToUpper(format), StripTrailingSlash(target)), err)
      && Thrown(r) == Some(RuntimeException(err))
  {
    ValidRequestRuns(jar, binDir, format, target, output, host);
  }

  /**
    A run that exceeds the 60-second default timeout, that cannot be launched, or that is
    killed by a signal ends the call with Symfony's exception before any file is moved.
   */
  lemma AbnormalEndMovesNothing(jar: string, binDir: seq<string>, format: string, target: string,
                                output: string, host: Host)
    requires RequestValid(binDir, format, target, output, host)
    requires ShellRun(host) == TimedOut || ShellRun(host) == NotStarted || ShellRun(host).Signaled?
    ensures var r := ParseSpec(jar, binDir, format, target, output, host);
      var args := Arguments(jar, ToUpper(format), StripTrailingSlash(target));
      && (ShellRun(host) == TimedOut ==>
            r == ProcessTimedOut(args) && Thrown(r) == Some(ProcessTimedOutException(60)))
      && (ShellRun(host) == NotStarted ==>
            r == ProcessNotStarted(args)
            && Thrown(r) == Some(RuntimeException("Unable to launch a new process.")))
      && (ShellRun(host).Signaled? ==>
            r == ProcessSignaled(args, ShellRun(host).signal)
            && Thrown(r) == Some(ProcessSignaledException(ShellRun(host).signal)))
  {
    ValidRequestRuns(jar, binDir, format, target, output, host);
    var r := ParseSpec(jar, binDir, format, target, output, host);
    var args := Arguments(jar, ToUpper(format), StripTrailingSlash(target));
    if ShellRun(host) == TimedOut {
      assert r == ProcessTimedOut(args);
    } else if ShellRun(host) == NotStarted {
      assert r == ProcessNotStarted(args);
    } else {
      assert r == ProcessSignaled(args, ShellRun(host).signal);
    }
  }

  /** Two listed files never give the same move. */
  lemma MoveOfInjective(f: FileEntry, g: FileEntry, output: string)
    requires MoveOf(f, output) == MoveOf(g, output)
    ensures f == g
  {
    var d := output + "/";
    assert |f.name| == |g.name|;
    assert f.name == (d + f.name)[|d|..] == (d + g.name)[|d|..] == g.name;
    var n := "/" + f.name;
    assert f.dir + "/" + f.name == f.dir + n && g.dir + "/" + g.name == g.dir + n;
    assert |f.dir| == |g.dir|;
    assert f.dir == (f.dir + n)[..|f.dir|] == (g.dir + n)[..|g.dir|] == g.dir;
  }

  /** A listed file is moved exactly when its basename ends with the extension. */
  lemma {:induction false} MovedIff(files: seq<FileEntry>, output: string, ext: string, f: FileEntry)
    requires f in files
    ensures MoveOf(f, output) in SelectMoves(files, output, ext) <==> EndsWith(f.name, ext)
  {
    var moves := SelectMoves(files, output, ext);
    if MoveOf(f, output) in moves {
      var g :| g in files && EndsWith(g.name, ext) && MoveOf(f, output) == MoveOf(g, output);
      MoveOfInjective(f, g, output);
    }
    if EndsWith(f.name, ext) {
      var init, last := files[..|files| - 1], files[|files| - 1];
      if f != last {
        assert f in init by {
          var k :| 0 <= k < |files| && files[k] == f;
          assert k < |files| - 1 && init[k] == f;
        }
        MovedIff(init, output, ext, f);
      }
    }
  }

  /**
    Each listed file is moved exactly once when its basename ends with the extension and
    never otherwise: the number of times its move occurs is the number of times the file
    is listed, or zero.
   */
  lemma {:induction false} MoveCount(files: seq<FileEntry>, output: string, ext: string, f: FileEntry)
    ensures multiset(SelectMoves(files, output, ext))[MoveOf(f, output)]
            == (if EndsWith(f.name, ext) then multiset(files)[f] else 0)
  {
    if files != [] {
      var init, last := files[..|files| - 1], files[|files| - 1];
      assert files == init + [last];
      MoveCount(init, output, ext, f);
      if MoveOf(last, output) == MoveOf(f, output) {
        MoveOfInjective(last, f, output);
      }
    }
  }

  /** The moves keep the listing order: a move never precedes the move of an earlier file. */
  lemma {:induction false} MovesFollowListing(files: seq<FileEntry>, output: string, ext: string,
                                              i: nat, j: nat)
    requires i < j < |files|
    requires EndsWith(files[i].name, ext) && EndsWith(files[j].name, ext)
    ensures exists a, b ::
              && 0 <= a < b < |SelectMoves(files, output, ext)|
              && SelectMoves(files, output, ext)[a] == MoveOf(files[i], output)
              && SelectMoves(files, output, ext)[b] == MoveOf(files[j], output)
  {
    var init := files[..|files| - 1];
    var moves := SelectMoves(files, output, ext);
    if j == |files| - 1 {
      assert files[i] in init by { assert init[i] == files[i]; }
      MovedIff(init, output, ext, files[i]);
      var rest := SelectMoves(init, output, ext);
      var a :| 0 <= a < |rest| && rest[a] == MoveOf(files[i], output);
      assert moves == rest + [MoveOf(files[j], output)];
      assert moves[a] == MoveOf(files[i], output) && moves[|rest|] == MoveOf(files[j], output);
    } else {
      assert init[i] == files[i] && init[j] == files[j];
      MovesFollowListing(init, output, ext, i, j);
      var rest := SelectMoves(init, output, ext);
      var a, b :| 0 <= a < b < |rest| &&
        rest[a] == MoveOf(files[i], output) && rest[b] == MoveOf(files[j], output);
      assert moves[..|rest|] == rest;
      assert moves[a] == rest[a] && moves[b] == rest[b];
    }
  }

  /**
    After a successful run into a truthy output directory, a listed file is moved iff
    its basename ends with `.` and the lower-cased format, always to
    `<output without its trailing slash>/<basename>`; no other move happens.
   */
  lemma CompletedMoves(jar: string, binDir: seq<string>, format: string, target: string,
                       output: string, host: Host)
    requires RequestValid(binDir, format, target, output, host)
    requires ShellRun(host) == Succeeded
    requires Truthy(StripTrailingSlash(output))
    ensures var r := ParseSpec(jar, binDir, format, target, output, host);
      && r.Completed?
      && (forall f :: f in host.targetFiles ==>
            (MoveOf(f, StripTrailingSlash(output)) in r.moves <==>
             EndsWith(f.name, Extension(ToUpper(format)))))
      && (forall m :: m in r.moves ==>
            exists f ::
              && f in host.targetFiles
              && m.source == f.dir + "/" + f.name
              && m.destination == StripTrailingSlash(output) + "/" + f.name)
  {
    ValidRequestRuns(jar, binDir, format, target, output, host);
    var out := StripTrailingSlash(output);
    forall f | f in host.targetFiles
      ensures MoveOf(f, out) in SelectMoves(host.targetFiles, out, Extension(ToUpper(format)))
              <==> EndsWith(f.name, Extension(ToUpper(format)))
    {
      MovedIff(host.targetFiles, out, Extension(ToUpper(format)), f);
    }
  }

  /**
    As written, an output directory that is falsy once stripped passes the directory
    check, and a successful run then moves nothing.
   */
  lemma FalsyOutputMovesNothing(jar: string, binDir: seq<string>, format: string, target: string,
                                output: string, host: Host)
    requires RequestValid(binDir, format, target, output, host)
    requires ShellRun(host) == Succeeded
    requires !Truthy(StripTrailingSlash(output))
    ensures ParseSpec(jar, binDir, format, target, output, host).Completed?
    ensures ParseSpec(jar, binDir, format, target, output, host).moves == []
  {
    ValidRequestRuns(jar, binDir, format, target, output, host);
    var out := StripTrailingSlash(output);
    assert AfterRun(Arguments(jar, ToUpper(format), StripTrailingSlash(target)), Succeeded,
                    out, Extension(ToUpper(format)), host.targetFiles).moves == [];
  }

  /** The output directories `/`, `0` and `0/` are falsy once stripped. */
  lemma FalsyOutputs()
    ensures !Truthy(StripTrailingSlash("/"))
    ensures !Truthy(StripTrailingSlash("0"))
    ensures !Truthy(StripTrailingSlash("0/"))
  {
    assert StripTrailingSlash("/") == "";
    assert StripTrailingSlash("0/") == "0";
  }

  /** The listing of the example below: two files in `pdfs` and one in a sub-directory. */
  function ExampleHost(): Host {
    Host({"pdfs/", "out/"}, ["/usr/bin"], {"/usr/bin"}, Succeeded,
         "sh: 1: exec: java: not found",
         [FileEntry("pdfs", "a.csv"), FileEntry("pdfs", "a.pdf"), FileEntry("pdfs/sub", "B.CSV")])
  }

  /**
    A batch run on `pdfs/` into `out/` as `csv`: the format is uppercased, both trailing
    slashes go, and only the basename ending in `.csv` is moved (`B.CSV` is not: the
    match is case-sensitive).
   */
  lemma ExampleBatchRun()
    ensures ParseSpec("tabula.jar", [], "csv", "pdfs/", "out/", ExampleHost())
            == Completed(["java", "-jar", "tabula.jar", "-f", "CSV", "-b", "pdfs"],
                         [Move("pdfs/a.csv", "out/a.csv")])
  {
    ExampleStrings();
    ExampleJavaFound();
    ExampleListingMoves();
  }

  /** The string facts the example run needs. */
  lemma ExampleStrings()
    ensures ToUpper("csv") == "CSV" && Extension("CSV") == ".csv"
    ensures StripTrailingSlash("pdfs/") == "pdfs" && StripTrailingSlash("out/") == "out"
    ensures Arguments("tabula.jar", "CSV", "pdfs") == ["java", "-jar", "tabula.jar", "-f", "CSV", "-b", "pdfs"]
  {
    ExampleFormat();
    ExampleStripped();
  }

  /** `csv` uppercases to `CSV`, whose extension is `.csv`. */
  lemma ExampleFormat()
    ensures ToUpper("csv") == "CSV" && Extension("CSV") == ".csv"
  {
    assert ToUpper("csv") == "CSV" by {
      assert UpperChar('c') == 'C' && UpperChar('s') == 'S' && UpperChar('v') == 'V';
    }
    assert Extension("CSV") == ".csv" by {
      assert LowerChar('C') == 'c' && LowerChar('S') == 's' && LowerChar('V') == 'v';
    }
  }

  /** Both example directories lose their trailing slash. */
  lemma ExampleStripped()
    ensures StripTrailingSlash("pdfs/") == "pdfs" && StripTrailingSlash("out/") == "out"
  {
    assert StripTrailingSlash("pdfs/") == "pdfs" by {
      assert "pdfs/"[..4] == "pdfs";
    }
    assert StripTrailingSlash("out/") == "out" by {
      assert "out/"[..3] == "out";
    }
  }

  /** The example host has `java` on its PATH. */
  lemma ExampleJavaFound()
    ensures FindJava(ExampleHost().searchPath + [], ExampleHost().javaDirs).Some?
  {
    assert ExampleHost().searchPath + [] == ["/usr/bin"];
    assert FindJava(["/usr/bin"], {"/usr/bin"}).Some?;
  }

  /** Of the example listing, only `pdfs/a.csv` ends with `.csv`. */
  lemma ExampleListingMoves()
    ensures SelectMoves(ExampleHost().targetFiles, "out", ".csv") == [Move("pdfs/a.csv", "out/a.csv")]
  {
    var files := ExampleHost().targetFiles;
    var m := Move("pdfs/a.csv", "out/a.csv");
    ExampleSuffixes();
    ExampleMove();
    assert files[..1] == [files[0]] && files[..1][..0] == [];
    assert SelectMoves(files[..1], "out", ".csv") == [m];
    assert SelectMoves(files[..2], "out", ".csv") == [m] by {
      assert files[..2][..1] == files[..1] && files[..2][1] == files[1];
    }
    assert files[..2] == files[..|files| - 1];
  }

  /** The move of the example's `a.csv`. */
  lemma ExampleMove()
    ensures MoveOf(FileEntry("pdfs", "a.csv"), "out") == Move("pdfs/a.csv", "out/a.csv")
  {
  }

  /** Which example basenames end with `.csv`. */
  lemma ExampleSuffixes()
    ensures EndsWith("a.csv", ".csv") && !EndsWith("a.pdf", ".csv") && !EndsWith("B.CSV", ".csv")
  {
    assert "a.csv"[1..] == ".csv";
    assert "a.pdf"[1..][1] != ".csv"[1];
    assert "B.CSV"[1..][1] != ".csv"[1];
  }

  /** `xml` gets past the empty check and is refused as an invalid format. */
  lemma ExampleInvalidFormat()
    ensures ParseSpec("tabula.jar", [], "xml", "pdfs/", "out/", ExampleHost()) == Rejected(InvalidFormat)
  {
    assert ToUpper("xml") == "XML";
  }

  /** `setJarArchive` followed by `getJarArchive` gives back the value; `binDir` is untouched. */
  method SetThenGetJarArchive(t: Tabula, j: string) returns (got: string)
    modifies t
    ensures got == j && t.binDir == old(t.binDir)
  {
    t.SetJarArchive(j);
    got := t.GetJarArchive();
  }

  /** `setBinDir` followed by `getBinDir` gives back the value; the jar path is untouched. */
  method SetThenGetBinDir(t: Tabula, d: seq<string>) returns (got: seq<string>)
    modifies t
    ensures got == d && t.jarArchive == old(t.jarArchive)
  {
    t.SetBinDir(d);
    got := t.GetBinDir();
  }
}
