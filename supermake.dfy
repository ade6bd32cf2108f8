/** `main`: the help check, the validator, the depth budget, the discovery of the sources, the library
    and binary names, the custom flags and the makefile, as one function of the command line and the
    directory snapshot, and the statement sequence that computes it. */
module Supermake {
  import opened Wrappers
  import opened Text
  import opened Ordering
  import opened Errors
  import opened Paths
  import opened FileSystems
  import opened Libraries
  import opened Includes
  import opened Crawl
  import opened Sources
  import opened Options
  import opened BinaryName
  import opened Makefiles
  import opened CrawlerState

  /** What a run that gets as far as writing produces: the configuration the makefile is built from,
      the outcome of the guessing block when it ran, and the makefile's text. */
  datatype Outcome = Outcome(cfg: MakeConfig, guess: Option<Guessed>, makefile: string)

  /** The library name: the last `--lib=<non-space run>`, with `lib` prepended to its file name when
      missing; "" when no argument names a library. */
  function LibraryOption(argv: seq<string>): string {
    match LastCapture(argv, "--lib=", NonSpace)
    case Some(v) => LibraryName(v)
    case None => ""
  }

  /** The `--lib=` loop of `main`: every matching argument overwrites the name and is then prefixed. */
  method LibraryLoop(argv: seq<string>) returns (library: string)
    ensures library == LibraryOption(argv)
  {
    library := "";
    for i := 0 to |argv|
      invariant library == LibraryOption(argv[..i])
    {
      var m := Search(argv[i], "--lib=", NonSpace);
      assert argv[..i + 1][..i] == argv[..i];
      if m.Some? {
        library := m.value;
        var basename := Basename(library);
        if !StartsWith(basename, "lib") {
          library := PathJoin(Dirname(library), "lib" + basename);
        }
      }
    }
    assert argv[..|argv|] == argv;
  }

  /** The value of the last `key` argument, "" when there is none. */
  function OptionOrEmpty(argv: seq<string>, key: string, cls: CharClass): string {
    match LastCapture(argv, key, cls)
    case Some(v) => v
    case None => ""
  }

  /** The binary name of a program build and, when no `--binary=` gives one, the guessing block. */
  function BinaryChoice(argv: seq<string>, fs: FileSystem, s1: Guess, s2: Guess): (string, Option<Guessed>) {
    var given := OptionOrEmpty(argv, "--binary=", NonSpace);
    if given != "" then (given, None)
    else
      var g := GuessBinary(fs, s1, s2);
      (g.binary.value, Some(g))
  }

  /** The command-line checks at the start of `main`: a help token, then the validator. */
  function CommandLineError(argv: seq<string>): Option<Error> {
    if Options.HelpRequested(argv) then Some(Errors.HelpRequested) else ValidationError(argv)
  }

  /** `main` up to the end of the discovery loop: the first reason to stop, or what the loop found. */
  function Discovered(argv: seq<string>, fs: FileSystem, lib: Table, scan: Scanner): Result<Discovery, Error> {
    if CommandLineError(argv).Some? then Err(CommandLineError(argv).value)
    else
      var d :- Discover(fs, CrawlWith(fs, lib, scan, Deplevel(argv)), Sort(fs.listing));
      if d.fileDeps == [] then Err(NoSourceFiles) else Ok(d)
  }

  /** The rest of `main` before the makefile is written: the flags, the names and the options. */
  function Configure(argv: seq<string>, fs: FileSystem, s1: Guess, s2: Guess, d: Discovery): (MakeConfig, Option<Guessed>) {
    var library := LibraryOption(argv);
    var choice := if library == "" then BinaryChoice(argv, fs, s1, s2) else ("", None);
    var cfg := MakeConfig(
      header := "--print" !in argv && "--descrete" !in argv,
      entries := d.fileDeps,
      isCCode := !d.cleared,
      depend := Normalise(d.flags),
      custom := OptionOrEmpty(argv, "--custom=", AnyButNewline),
      usrlocal := "--usrlocal" in argv,
      debug := "--debug" in argv,
      warn := "--warn" in argv,
      target := if library == "" then Program(choice.0) else Library(library));
    (cfg, choice.1)
  }

  /** `main` for the library table `lib` and the include scanner `scan`: the first reason to stop, or
      what is written. Strategies 1 and 2 of the binary guess are the inputs `s1` and `s2`. */
  function Pipeline(argv: seq<string>, fs: FileSystem, lib: Table, scan: Scanner, s1: Guess, s2: Guess): Result<Outcome, Error> {
    var d :- Discovered(argv, fs, lib, scan);
    var (cfg, guess) := Configure(argv, fs, s1, s2, d);
    Ok(Outcome(cfg, guess, MakefileText(cfg)))
  }

  /** `main` as the program runs it: with `librarys` and the two `#include` patterns. */
  function Generate(argv: seq<string>, fs: FileSystem, s1: Guess, s2: Guess): Result<Outcome, Error> {
    Pipeline(argv, fs, Librarys, FindIncludes, s1, s2)
  }

  /** The statements of `main`. */
  method Execute(argv: seq<string>, fs: FileSystem, s1: Guess, s2: Guess) returns (r: Result<Outcome, Error>)
    ensures r == Generate(argv, fs, s1, s2)
  {
    var d :- FindSourceFiles(argv, fs, Librarys, FindIncludes);
    var cfg, guess := ConfigureOptions(argv, fs, s1, s2, d);
    var makefile := BuildMakefile(cfg);
    return Ok(Outcome(cfg, guess, makefile));
  }

  /** The help check and the validator. */
  method CheckCommandLine(argv: seq<string>) returns (r: Option<Error>)
    ensures r == CommandLineError(argv)
  {
    if "--help" in argv || "-help" in argv || "-h" in argv || "-?" in argv || "help" in argv ||
       "/h" in argv || "/?" in argv {
      return Some(Errors.HelpRequested);
    }
    assert !Options.HelpRequested(argv);
    r := FilterOptions(argv);
  }

  /** From the help check to the end of the discovery loop, over the global state of a fresh `Crawler`;
      the flags, the entries and the language are read back from that state. */
  method FindSourceFiles(argv: seq<string>, fs: FileSystem, lib: Table, scan: Scanner) returns (r: Result<Discovery, Error>)
    ensures r == Discovered(argv, fs, lib, scan)
  {
    var stop := CheckCommandLine(argv);
    if stop.Some? {
      return Err(stop.value);
    }
    var maxrecurse := DeplevelOption(argv);
    r := CrawlSources(fs, lib, scan, maxrecurse);
  }

  /** The discovery loop and the `hasSourceFiles` test. */
  method CrawlSources(fs: FileSystem, lib: Table, scan: Scanner, maxrecurse: nat) returns (r: Result<Discovery, Error>)
    ensures r == (var d :- Discover(fs, CrawlWith(fs, lib, scan, maxrecurse), Sort(fs.listing));
                  if d.fileDeps == [] then Err(NoSourceFiles) else Ok(d))
  {
    ghost var total := Discover(fs, CrawlWith(fs, lib, scan, maxrecurse), Sort(fs.listing));
    var crawler := new Crawler(fs, lib, scan);
    var found := crawler.FindSources(maxrecurse);
    if found.Err? {
      assert total.Err?;
      return Err(found.error);
    }
    assert total.Ok? && found.value == (total.value.fileDeps != []);
    if !found.value {
      return Err(NoSourceFiles);
    }
    var d := Discovery(crawler.fileDeps, crawler.depend, !crawler.isCCode);
    assert d == total.value;
    return Ok(d);
  }

  /** The `--binary=` loop and, when it finds no name, the guessing block. */
  method NameBinary(argv: seq<string>, fs: FileSystem, s1: Guess, s2: Guess) returns (binary: string, guess: Option<Guessed>)
    ensures (binary, guess) == BinaryChoice(argv, fs, s1, s2)
  {
    binary := "";
    guess := None;
    var given := LastMatch(argv, "--binary=", NonSpace);
    if given.Some? {
      binary := given.value;
    }
    if binary == "" {
      var g := GuessBinary(fs, s1, s2);
      binary := g.binary.value;
      guess := Some(g);
    }
  }

  /** The library, binary and custom-flag loops after the discovery, and the settings of the makefile. */
  method ConfigureOptions(argv: seq<string>, fs: FileSystem, s1: Guess, s2: Guess, d: Discovery)
      returns (cfg: MakeConfig, guess: Option<Guessed>)
    ensures (cfg, guess) == Configure(argv, fs, s1, s2, d)
  {
    var depend := Normalise(d.flags);
    var library := LibraryLoop(argv);
    var binary := "";
    guess := None;
    if library == "" {
      binary, guess := NameBinary(argv, fs, s1, s2);
    }
    var custom := "";
    var m := LastMatch(argv, "--custom=", AnyButNewline);
    if m.Some? {
      custom := m.value;
    }
    cfg := MakeConfig(
      header := "--print" !in argv && "--descrete" !in argv,
      entries := d.fileDeps,
      isCCode := !d.cleared,
      depend := depend,
      custom := custom,
      usrlocal := "--usrlocal" in argv,
      debug := "--debug" in argv,
      warn := "--warn" in argv,
      target := if library == "" then Program(binary) else Library(library));
  }

  // ---- What a run promises ----

  /** After the command-line checks, the discovery succeeds exactly when the directory holds a source
      and the crawl of every source succeeds; with no source it stops with `NoSourceFiles`, and
      otherwise with the error of the first failing source in sorted order. */
  lemma {:induction false} DiscoveredOutcome(argv: seq<string>, fs: FileSystem, lib: Table, scan: Scanner)
    requires CommandLineError(argv).None?
    ensures Discovered(argv, fs, lib, scan).Ok? <==>
      (exists n :: n in fs.listing && IsSource(fs, n)) &&
      forall n :: n in fs.listing && IsSource(fs, n) ==> CrawlFile(fs, lib, scan, n, Deplevel(argv)).Ok?
    ensures (forall n :: n in fs.listing ==> !IsSource(fs, n)) ==> Discovered(argv, fs, lib, scan) == Err(NoSourceFiles)
    ensures (exists n :: n in fs.listing && IsSource(fs, n) && CrawlFile(fs, lib, scan, n, Deplevel(argv)).Err?) ==>
      exists i :: 0 <= i < |Sort(fs.listing)| && IsSource(fs, Sort(fs.listing)[i]) &&
        CrawlFile(fs, lib, scan, Sort(fs.listing)[i], Deplevel(argv)).Err? &&
        Discovered(argv, fs, lib, scan) == Err(CrawlFile(fs, lib, scan, Sort(fs.listing)[i], Deplevel(argv)).error) &&
        forall k :: 0 <= k < i && IsSource(fs, Sort(fs.listing)[k]) ==> CrawlFile(fs, lib, scan, Sort(fs.listing)[k], Deplevel(argv)).Ok?
  {
    var names := Sort(fs.listing);
    var level := Deplevel(argv);
    var crawl := CrawlWith(fs, lib, scan, level);
    assert forall n :: crawl(n) == CrawlFile(fs, lib, scan, n, level);
    SortSameElements(fs.listing);
    DiscoverError(fs, crawl, names);
    var disc := Discover(fs, crawl, names);
    assert Discovered(argv, fs, lib, scan) == if disc.Err? then Err(disc.error)
           else if disc.value.fileDeps == [] then Err(NoSourceFiles) else Ok(disc.value);
    if disc.Ok? {
      DiscoverEmpty(fs, crawl, names);
      forall n | n in fs.listing && IsSource(fs, n)
        ensures CrawlFile(fs, lib, scan, n, level).Ok?
      {
        var i :| 0 <= i < |names| && names[i] == n;
      }
    } else {
      var i :| 0 <= i < |names| && IsSource(fs, names[i]) && crawl(names[i]).Err?;
      assert names[i] in fs.listing;
    }
  }

  /** A successful run is the configuration of the discovery's result, and the makefile built from it. */
  lemma {:induction false} PipelineOk(argv: seq<string>, fs: FileSystem, lib: Table, scan: Scanner, s1: Guess, s2: Guess)
    requires Pipeline(argv, fs, lib, scan, s1, s2).Ok?
    ensures Discovered(argv, fs, lib, scan).Ok?
    ensures var c := Configure(argv, fs, s1, s2, Discovered(argv, fs, lib, scan).value);
      Pipeline(argv, fs, lib, scan, s1, s2).value == Outcome(c.0, c.1, MakefileText(c.0))
  {
  }

  /** The command-line checks come first: a help token, then the validator's first complaint. */
  lemma {:induction false} PipelineStops(argv: seq<string>, fs: FileSystem, lib: Table, scan: Scanner, s1: Guess, s2: Guess)
    ensures Options.HelpRequested(argv) ==> Pipeline(argv, fs, lib, scan, s1, s2) == Err(Errors.HelpRequested)
    ensures !Options.HelpRequested(argv) && ValidationError(argv).Some? ==>
      Pipeline(argv, fs, lib, scan, s1, s2) == Err(ValidationError(argv).value)
    ensures CommandLineError(argv).None? ==>
      (Pipeline(argv, fs, lib, scan, s1, s2).Ok? <==>
        (exists n :: n in fs.listing && IsSource(fs, n)) &&
        forall n :: n in fs.listing && IsSource(fs, n) ==> CrawlFile(fs, lib, scan, n, Deplevel(argv)).Ok?)
    ensures CommandLineError(argv).None? && (forall n :: n in fs.listing ==> !IsSource(fs, n)) ==>
      Pipeline(argv, fs, lib, scan, s1, s2) == Err(NoSourceFiles)
  {
    var r := Discovered(argv, fs, lib, scan);
    assert Pipeline(argv, fs, lib, scan, s1, s2).Ok? <==> r.Ok?;
    assert r.Err? ==> Pipeline(argv, fs, lib, scan, s1, s2) == Err(r.error);
    if CommandLineError(argv).None? {
      DiscoveredOutcome(argv, fs, lib, scan);
    }
  }

  /** The discovery's entries: one per source of the directory, in alphabetical order, each built
      from the crawl of that source with the `--deplevel` budget. */
  lemma {:induction false} DiscoveredEntries(argv: seq<string>, fs: FileSystem, lib: Table, scan: Scanner)
    requires Discovered(argv, fs, lib, scan).Ok?
    ensures var entries := Discovered(argv, fs, lib, scan).value.fileDeps;
      var sources := SourceNames(fs, Sort(fs.listing));
      Sorted(sources) && (forall n :: n in sources <==> n in fs.listing && IsSource(fs, n)) &&
      |entries| == |sources| &&
      forall i :: 0 <= i < |entries| ==>
        entries[i].source == sources[i] && CrawlFile(fs, lib, scan, sources[i], Deplevel(argv)).Ok? &&
        entries[i] == SourceEntry(sources[i], CrawlFile(fs, lib, scan, sources[i], Deplevel(argv)).value.deps)
  {
    var names := Sort(fs.listing);
    var crawl := CrawlWith(fs, lib, scan, Deplevel(argv));
    assert forall n :: crawl(n) == CrawlFile(fs, lib, scan, n, Deplevel(argv));
    assert Discovered(argv, fs, lib, scan).value == Discover(fs, crawl, names).value;
    DiscoverEntries(fs, crawl, names);
    SourceNamesSorted(fs, names);
    SourceNamesSpec(fs, names);
    SortSameElements(fs.listing);
  }

  /** The discovery's flags are those the crawls of the sources appended, each a flag of the table. */
  lemma {:induction false} DiscoveredFlags(argv: seq<string>, fs: FileSystem, lib: Table, scan: Scanner, f: string)
    requires Discovered(argv, fs, lib, scan).Ok?
    ensures f in Discovered(argv, fs, lib, scan).value.flags <==>
      exists n :: n in fs.listing && IsSource(fs, n) &&
        CrawlFile(fs, lib, scan, n, Deplevel(argv)).Ok? && f in CrawlFile(fs, lib, scan, n, Deplevel(argv)).value.flags
    ensures f in Discovered(argv, fs, lib, scan).value.flags ==> exists h :: h in lib && f in lib[h]
  {
    DiscoveredFlagsFromCrawls(argv, fs, lib, scan, f);
    if f in Discovered(argv, fs, lib, scan).value.flags {
      var n :| n in fs.listing && IsSource(fs, n) &&
        CrawlFile(fs, lib, scan, n, Deplevel(argv)).Ok? && f in CrawlFile(fs, lib, scan, n, Deplevel(argv)).value.flags;
      CrawlFileFlagsSound(fs, lib, scan, n, Deplevel(argv));
    }
  }

  lemma {:induction false} DiscoveredFlagsFromCrawls(argv: seq<string>, fs: FileSystem, lib: Table, scan: Scanner, f: string)
    requires Discovered(argv, fs, lib, scan).Ok?
    ensures f in Discovered(argv, fs, lib, scan).value.flags <==>
      exists n :: n in fs.listing && IsSource(fs, n) &&
        CrawlFile(fs, lib, scan, n, Deplevel(argv)).Ok? && f in CrawlFile(fs, lib, scan, n, Deplevel(argv)).value.flags
  {
    var names := Sort(fs.listing);
    var level := Deplevel(argv);
    var crawl := CrawlWith(fs, lib, scan, level);
    assert forall n :: crawl(n) == CrawlFile(fs, lib, scan, n, level);
    var d := Discovered(argv, fs, lib, scan).value;
    assert d == Discover(fs, crawl, names).value;
    DiscoverFlags(fs, crawl, names, f);
    SortSameElements(fs.listing);
  }

  /** The discovery clears `isCCode` exactly when some source has a C++ extension or its crawl met a
      `.hpp` include. */
  lemma {:induction false} DiscoveredLanguage(argv: seq<string>, fs: FileSystem, lib: Table, scan: Scanner)
    requires Discovered(argv, fs, lib, scan).Ok?
    ensures !Discovered(argv, fs, lib, scan).value.cleared <==>
      forall n :: n in fs.listing && IsSource(fs, n) ==>
        !IsCppSourceName(n) && !(CrawlFile(fs, lib, scan, n, Deplevel(argv)).Ok? && CrawlFile(fs, lib, scan, n, Deplevel(argv)).value.sawHpp)
  {
    var names := Sort(fs.listing);
    var level := Deplevel(argv);
    var crawl := CrawlWith(fs, lib, scan, level);
    assert forall n :: crawl(n) == CrawlFile(fs, lib, scan, n, level);
    assert Discovered(argv, fs, lib, scan).value == Discover(fs, crawl, names).value;
    DiscoverLanguage(fs, crawl, names);
    SortSameElements(fs.listing);
  }

  /** The makefile has one entry per source of the directory, in alphabetical order, each holding what
      the crawl of that source found with the `--deplevel` budget. */
  lemma {:induction false} PipelineEntries(argv: seq<string>, fs: FileSystem, lib: Table, scan: Scanner, s1: Guess, s2: Guess)
    requires Pipeline(argv, fs, lib, scan, s1, s2).Ok?
    ensures var entries := Pipeline(argv, fs, lib, scan, s1, s2).value.cfg.entries;
      var sources := SourceNames(fs, Sort(fs.listing));
      Sorted(sources) && (forall n :: n in sources <==> n in fs.listing && IsSource(fs, n)) &&
      |entries| == |sources| &&
      forall i :: 0 <= i < |entries| ==>
        entries[i].source == sources[i] && CrawlFile(fs, lib, scan, sources[i], Deplevel(argv)).Ok? &&
        entries[i] == SourceEntry(sources[i], CrawlFile(fs, lib, scan, sources[i], Deplevel(argv)).value.deps)
  {
    PipelineOk(argv, fs, lib, scan, s1, s2);
    DiscoveredEntries(argv, fs, lib, scan);
  }

  /** The `FLAGS` list is strictly increasing and holds exactly the library flags the crawls of the
      sources appended, each a flag of some library of the table. */
  lemma {:induction false} PipelineFlags(argv: seq<string>, fs: FileSystem, lib: Table, scan: Scanner, s1: Guess, s2: Guess,
                                         f: string)
    requires Pipeline(argv, fs, lib, scan, s1, s2).Ok?
    ensures StrictlySorted(Pipeline(argv, fs, lib, scan, s1, s2).value.cfg.depend)
    ensures f in Pipeline(argv, fs, lib, scan, s1, s2).value.cfg.depend <==>
      exists n :: n in fs.listing && IsSource(fs, n) &&
        CrawlFile(fs, lib, scan, n, Deplevel(argv)).Ok? && f in CrawlFile(fs, lib, scan, n, Deplevel(argv)).value.flags
    ensures f in Pipeline(argv, fs, lib, scan, s1, s2).value.cfg.depend ==> exists h :: h in lib && f in lib[h]
  {
    PipelineOk(argv, fs, lib, scan, s1, s2);
    var d := Discovered(argv, fs, lib, scan).value;
    assert Pipeline(argv, fs, lib, scan, s1, s2).value.cfg.depend == Normalise(d.flags);
    NormaliseSpec(d.flags);
    DiscoveredFlags(argv, fs, lib, scan, f);
  }

  /** The project is C (`gcc`, two-character extensions stripped) exactly when no source has a C++
      extension and no crawl met a `.hpp` include. */
  lemma {:induction false} PipelineLanguage(argv: seq<string>, fs: FileSystem, lib: Table, scan: Scanner, s1: Guess, s2: Guess)
    requires Pipeline(argv, fs, lib, scan, s1, s2).Ok?
    ensures Pipeline(argv, fs, lib, scan, s1, s2).value.cfg.isCCode <==>
      forall n :: n in fs.listing && IsSource(fs, n) ==>
        !IsCppSourceName(n) && !(CrawlFile(fs, lib, scan, n, Deplevel(argv)).Ok? && CrawlFile(fs, lib, scan, n, Deplevel(argv)).value.sawHpp)
  {
    PipelineOk(argv, fs, lib, scan, s1, s2);
    DiscoveredLanguage(argv, fs, lib, scan);
  }

  /** An option's value is empty exactly when no argument matches, and otherwise it is the value of the
      last matching argument. */
  lemma {:induction false} OptionOrEmptySpec(argv: seq<string>, key: string, cls: CharClass)
    ensures OptionOrEmpty(argv, key, cls) == "" <==> forall i :: 0 <= i < |argv| ==> Search(argv[i], key, cls).None?
    ensures OptionOrEmpty(argv, key, cls) != "" ==> LastCapture(argv, key, cls) == Some(OptionOrEmpty(argv, key, cls))
  {
    LastCaptureSpec(argv, key, cls);
    if LastCapture(argv, key, cls).Some? {
      var i :| 0 <= i < |argv| && Search(argv[i], key, cls) == LastCapture(argv, key, cls);
      SearchSpec(argv[i], key, cls);
    }
  }

  /** A library is built exactly when some argument gives `--lib=` a name; its file name then starts
      with `lib`, and it is the last such name, prefixed when needed. */
  lemma {:induction false} LibraryOptionSpec(argv: seq<string>)
    ensures LibraryOption(argv) != "" <==> exists i :: 0 <= i < |argv| && Search(argv[i], "--lib=", NonSpace).Some?
    ensures LibraryOption(argv) != "" ==>
      StartsWith(Basename(LibraryOption(argv)), "lib") &&
      LibraryOption(argv) == LibraryName(LastCapture(argv, "--lib=", NonSpace).value)
  {
    LastCaptureSpec(argv, "--lib=", NonSpace);
    if LastCapture(argv, "--lib=", NonSpace).Some? {
      var v := LastCapture(argv, "--lib=", NonSpace).value;
      LibraryNameSpec(v);
      var base := Basename(LibraryName(v));
      assert |base| >= 3 && EndsWith(LibraryName(v), base);
    }
  }

  /** The target: a library when `--lib=` names one, built under a `lib...` name and without guessing;
      otherwise a program named by the last `--binary=`, or by the first strategy that gives a name when
      there is none, and then the guess is never marked as crazy guesswork. */
  lemma {:induction false} ConfigureTarget(argv: seq<string>, fs: FileSystem, s1: Guess, s2: Guess, d: Discovery)
    ensures var c := Configure(argv, fs, s1, s2, d);
      (c.0.target.Library? <==> exists i :: 0 <= i < |argv| && Search(argv[i], "--lib=", NonSpace).Some?) &&
      (c.0.target.Library? ==> StartsWith(Basename(c.0.target.library), "lib") && c.1.None?) &&
      (c.0.target.Program? ==>
        c.0.target.binary != "" &&
        (c.1.None? <==> exists i :: 0 <= i < |argv| && Search(argv[i], "--binary=", NonSpace).Some?) &&
        (c.1.None? ==> LastCapture(argv, "--binary=", NonSpace) == Some(c.0.target.binary)) &&
        (c.1.Some? ==> FirstTruthy(Strategies(fs, s1, s2)) == Some(c.0.target.binary) && !c.1.value.crazy))
  {
    LibraryOptionSpec(argv);
    OptionOrEmptySpec(argv, "--binary=", NonSpace);
    GuessIsFirstTruthy(fs, s1, s2);
    CrazyGuessworkNeverSet(fs, s1, s2);
  }

  /** The settings read from the command line: the custom flags are the last `--custom=` text, or empty
      when there is none, and the notice is written unless `--print` or `--descrete` is given. */
  lemma {:induction false} ConfigureSettings(argv: seq<string>, fs: FileSystem, s1: Guess, s2: Guess, d: Discovery)
    ensures var cfg := Configure(argv, fs, s1, s2, d).0;
      (cfg.custom == "" <==> forall i :: 0 <= i < |argv| ==> Search(argv[i], "--custom=", AnyButNewline).None?) &&
      (cfg.custom != "" ==> LastCapture(argv, "--custom=", AnyButNewline) == Some(cfg.custom)) &&
      (StartsWith(MakefileText(cfg), MakefileMessage) <==> "--print" !in argv && "--descrete" !in argv)
  {
    OptionOrEmptySpec(argv, "--custom=", AnyButNewline);
    MakefileHeader(Configure(argv, fs, s1, s2, d).0);
  }

  /** What is built, end to end: see `ConfigureTarget`. */
  lemma {:induction false} PipelineTarget(argv: seq<string>, fs: FileSystem, lib: Table, scan: Scanner, s1: Guess, s2: Guess)
    requires Pipeline(argv, fs, lib, scan, s1, s2).Ok?
    ensures var o := Pipeline(argv, fs, lib, scan, s1, s2).value;
      (o.cfg.target.Library? <==> exists i :: 0 <= i < |argv| && Search(argv[i], "--lib=", NonSpace).Some?) &&
      (o.cfg.target.Library? ==> StartsWith(Basename(o.cfg.target.library), "lib") && o.guess.None?) &&
      (o.cfg.target.Program? ==>
        o.cfg.target.binary != "" &&
        (o.guess.None? <==> exists i :: 0 <= i < |argv| && Search(argv[i], "--binary=", NonSpace).Some?) &&
        (o.guess.None? ==> LastCapture(argv, "--binary=", NonSpace) == Some(o.cfg.target.binary)) &&
        (o.guess.Some? ==> FirstTruthy(Strategies(fs, s1, s2)) == Some(o.cfg.target.binary) && !o.guess.value.crazy))
  {
    PipelineOk(argv, fs, lib, scan, s1, s2);
    ConfigureTarget(argv, fs, s1, s2, Discovered(argv, fs, lib, scan).value);
  }

  /** The custom flags and the notice, end to end: see `ConfigureSettings`. */
  lemma {:induction false} PipelineSettings(argv: seq<string>, fs: FileSystem, lib: Table, scan: Scanner, s1: Guess, s2: Guess)
    requires Pipeline(argv, fs, lib, scan, s1, s2).Ok?
    ensures var o := Pipeline(argv, fs, lib, scan, s1, s2).value;
      o.makefile == MakefileText(o.cfg) &&
      (o.cfg.custom == "" <==> forall i :: 0 <= i < |argv| ==> Search(argv[i], "--custom=", AnyButNewline).None?) &&
      (o.cfg.custom != "" ==> LastCapture(argv, "--custom=", AnyButNewline) == Some(o.cfg.custom)) &&
      (StartsWith(o.makefile, MakefileMessage) <==> "--print" !in argv && "--descrete" !in argv)
  {
    PipelineOk(argv, fs, lib, scan, s1, s2);
    ConfigureSettings(argv, fs, s1, s2, Discovered(argv, fs, lib, scan).value);
  }

  /** The discovery crawls the sorted listing, so the listing's order does not matter to it. */
  lemma {:induction false} DiscoveredListingFree(argv: seq<string>, fs: FileSystem, fs2: FileSystem, lib: Table, scan: Scanner)
    requires fs2.files == fs.files && fs2.existing == fs.existing && fs2.dirs == fs.dirs
    requires multiset(fs2.listing) == multiset(fs.listing)
    ensures Discovered(argv, fs2, lib, scan) == Discovered(argv, fs, lib, scan)
  {
    CrawlSortedListingFree(fs, fs2, lib, scan, Deplevel(argv));
  }

  /** Nor does it matter to the names and the settings. */
  lemma {:induction false} ConfigureListingFree(argv: seq<string>, fs: FileSystem, fs2: FileSystem, s1: Guess, s2: Guess, d: Discovery)
    requires fs2.dirs == fs.dirs && multiset(fs2.listing) == multiset(fs.listing)
    ensures Configure(argv, fs2, s1, s2, d) == Configure(argv, fs, s1, s2, d)
  {
    Strategy5ListingFree(fs, fs2);
    assert GuessBinary(fs2, s1, s2) == GuessBinary(fs, s1, s2);
    assert BinaryChoice(argv, fs2, s1, s2) == BinaryChoice(argv, fs, s1, s2);
  }

  /** The run sorts the listing, so the order in which `os.listdir` returns the entries changes
      nothing: neither the makefile nor the reason to stop. */
  lemma {:induction false} PipelineListingFree(argv: seq<string>, fs: FileSystem, fs2: FileSystem, lib: Table, scan: Scanner,
                                               s1: Guess, s2: Guess)
    requires fs2.files == fs.files && fs2.existing == fs.existing && fs2.dirs == fs.dirs
    requires multiset(fs2.listing) == multiset(fs.listing)
    ensures Pipeline(argv, fs2, lib, scan, s1, s2) == Pipeline(argv, fs, lib, scan, s1, s2)
  {
    DiscoveredListingFree(argv, fs, fs2, lib, scan);
    if Discovered(argv, fs, lib, scan).Ok? {
      ConfigureListingFree(argv, fs, fs2, s1, s2, Discovered(argv, fs, lib, scan).value);
    }
  }
}
