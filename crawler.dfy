/** The stateful side of the crawl: the globals `depend`, `isCCode`, `fileCache` and `fileDeps`, the
    lazily filled file cache, `getFileDeps` with its two loops, and the discovery loop of `main`. Each
    method is proved against the functions of `Crawl` and `Sources`. */
module CrawlerState {
  import opened Wrappers
  import opened Text
  import opened Ordering
  import opened Errors
  import opened FileSystems
  import opened Libraries
  import opened Includes
  import opened Crawl
  import opened Sources

  /** `deps.remove(dep); deps.insert(0, dep)` for the first entry that passes `test`. */
  method MoveHeaderToFront(test: HeaderTest, deps: seq<string>, source: string) returns (r: seq<string>)
    ensures r == WithHeaderFirst(test, deps, source)
  {
    r := deps;
    var i := 0;
    while i < |deps|
      invariant 0 <= i <= |deps|
      invariant forall k :: 0 <= k < i ==> !Matches(test, deps[k], source)
    {
      if Matches(test, deps[i], source) {
        var dep := deps[i];
        r := [dep] + deps[..i] + deps[i + 1..];
        HeaderFirstPlacement(test, deps, source, i);
        return;
      }
      i := i + 1;
    }
    HeaderFirstPlacement(test, deps, source, i);
  }

  lemma {:induction false} AppendFresh(s: seq<string>, x: string)
    requires Distinct(s) && x !in s
    ensures Distinct(s + [x])
  {
    forall i, j | 0 <= i < j < |s| + 1 ensures (s + [x])[i] != (s + [x])[j] {
      if j == |s| {
        assert s[i] in s;
      }
    }
  }

  /** The program's global state during one run over the directory snapshot `fs`. */
  class Crawler {
    const fs: FileSystem
    const lib: Table
    const scan: Scanner
    var depend: seq<string>           // library flags, in the order they were appended
    var isCCode: bool                 // "until proven otherwise"
    var fileCache: map<string, string>
    var fileDeps: seq<SourceDeps>
    ghost var diskReads: seq<string>  // the paths actually opened, in order

    /** Cached text is the file's text, and every file was opened at most once: exactly the cached ones. */
    ghost predicate Valid()
      reads this
    {
      (forall p :: p in fileCache ==> p in fs.files && fileCache[p] == fs.files[p]) &&
      Distinct(diskReads) &&
      (forall p :: p in diskReads <==> p in fileCache)
    }

    constructor(fs: FileSystem, lib: Table, scan: Scanner)
      ensures Valid()
      ensures this.fs == fs && this.lib == lib && this.scan == scan
      ensures depend == [] && isCCode && fileCache == map[] && fileDeps == [] && diskReads == []
    {
      this.fs := fs;
      this.lib := lib;
      this.scan := scan;
      depend := [];
      isCCode := true;
      fileCache := map[];
      fileDeps := [];
      diskReads := [];
    }

    /** `GetFileFromCache`: the file is opened only on its first request. */
    method GetFileFromCache(filename: string) returns (r: Result<string, Error>)
      requires Valid()
      modifies this
      ensures Valid()
      ensures r == if filename in fs.files then Ok(fs.files[filename]) else Err(ReadError(filename))
      ensures depend == old(depend) && isCCode == old(isCCode) && fileDeps == old(fileDeps)
      ensures filename in old(fileCache) || filename !in fs.files ==>
        fileCache == old(fileCache) && diskReads == old(diskReads)
      ensures filename !in old(fileCache) && filename in fs.files ==>
        fileCache == old(fileCache)[filename := fs.files[filename]] && diskReads == old(diskReads) + [filename]
    {
      if filename !in fileCache {
        if filename !in fs.files {
          return Err(ReadError(filename));
        }
        AppendFresh(diskReads, filename);
        fileCache := fileCache[filename := fs.files[filename]];
        diskReads := diskReads + [filename];
      }
      return Ok(fileCache[filename]);
    }

    /** The loop over the angle includes: each one that is a library key has its flags appended. */
    method AddLibraryFlags(headers: seq<string>)
      modifies this`depend
      ensures depend == old(depend) + LibraryFlags(lib, headers)
    {
      var i := 0;
      while i < |headers|
        invariant 0 <= i <= |headers|
        invariant depend == old(depend) + LibraryFlags(lib, headers[..i])
      {
        if headers[i] in lib {
          depend := depend + lib[headers[i]];
        }
        assert headers[..i + 1][..i] == headers[..i];
        i := i + 1;
      }
      assert headers[..i] == headers;
    }

    /** `getFileDeps(filename, maxrecurse)`: returns what `CrawlFile` returns, appends its flags to
        `depend` and clears `isCCode` when it saw a `.hpp` include. */
    method GetFileDeps(filename: string, maxrecurse: int) returns (r: Result<seq<string>, Error>)
      requires Valid()
      modifies this
      ensures Valid()
      ensures fileDeps == old(fileDeps)
      ensures CrawlFile(fs, lib, scan, filename, maxrecurse).Err? ==>
        r == Err(CrawlFile(fs, lib, scan, filename, maxrecurse).error)
      ensures CrawlFile(fs, lib, scan, filename, maxrecurse).Ok? ==>
        var c := CrawlFile(fs, lib, scan, filename, maxrecurse).value;
        r == Ok(c.deps) && depend == old(depend) + c.flags && isCCode == (old(isCCode) && !c.sawHpp)
      ensures maxrecurse <= 0 ==> fileCache == old(fileCache) && diskReads == old(diskReads)
      decreases Budget(maxrecurse), 1
    {
      var budget := maxrecurse - 1;
      if budget < 0 {
        return Ok([]);
      }
      var text :- GetFileFromCache(filename);
      var angle := scan(Angle, text);
      AddLibraryFlags(angle);
      var again := GetFileFromCache(filename);
      r := CrawlIncludes(filename, scan(Quoted, again.value), budget, old(depend), LibraryFlags(lib, angle));
    }

    /** The loop over the quoted includes of `filename`, with the local list `deps`; `budget` is the
        decremented `maxrecurse`, and `depend` holds `base + flags` on entry. */
    method CrawlIncludes(filename: string, quoted: seq<string>, budget: nat,
                         ghost base: seq<string>, ghost flags: seq<string>) returns (r: Result<seq<string>, Error>)
      requires Valid()
      requires depend == base + flags
      modifies this
      ensures Valid()
      ensures fileDeps == old(fileDeps)
      ensures CrawlQuoted(fs, lib, scan, filename, quoted, budget, [], flags, false).Err? ==>
        r == Err(CrawlQuoted(fs, lib, scan, filename, quoted, budget, [], flags, false).error)
      ensures CrawlQuoted(fs, lib, scan, filename, quoted, budget, [], flags, false).Ok? ==>
        var c := CrawlQuoted(fs, lib, scan, filename, quoted, budget, [], flags, false).value;
        r == Ok(c.deps) && depend == base + c.flags && isCCode == (old(isCCode) && !c.sawHpp)
      decreases budget + 1, 0
    {
      var deps: seq<string> := [];
      ghost var acc := flags;
      ghost var hpp := false;
      ghost var total := CrawlQuoted(fs, lib, scan, filename, quoted, budget, [], flags, false);
      var j := 0;
      while j < |quoted|
        invariant 0 <= j <= |quoted|
        invariant Valid()
        invariant depend == base + acc
        invariant isCCode == (old(isCCode) && !hpp)
        invariant fileDeps == old(fileDeps)
        invariant CrawlQuoted(fs, lib, scan, filename, quoted[j..], budget, deps, acc, hpp) == total
      {
        var c := quoted[j];
        assert quoted[j..][0] == c && quoted[j..][1..] == quoted[j + 1..];
        if IsHppInclude(c) {
          isCCode := false;
        }
        hpp := hpp || IsHppInclude(c);
        if c in lib {
          AppendAssociative(base, acc, lib[c]);
          depend := depend + lib[c];
          acc := acc + lib[c];
        } else if c !in deps {
          if c in fs.existing {
            var sub :- GetFileDeps(c, budget);
            ghost var found := CrawlFile(fs, lib, scan, c, budget).value;
            AppendAssociative(base, acc, found.flags);
            deps := Dedup(deps + [Recorded(filename, c)] + sub);
            acc := acc + found.flags;
            hpp := hpp || found.sawHpp;
          }
        }
        j := j + 1;
      }
      return Ok(deps);
    }

    /** One source of the discovery loop: `isCCode` is cleared for a C++ extension, the source is
        crawled, and its entry is appended to `fileDeps`. */
    method AddSource(filename: string, maxrecurse: int) returns (r: Result<SourceDeps, Error>)
      requires Valid()
      modifies this
      ensures Valid()
      ensures CrawlFile(fs, lib, scan, filename, maxrecurse).Err? ==>
        r == Err(CrawlFile(fs, lib, scan, filename, maxrecurse).error)
      ensures CrawlFile(fs, lib, scan, filename, maxrecurse).Ok? ==>
        var c := CrawlFile(fs, lib, scan, filename, maxrecurse).value;
        r == Ok(SourceEntry(filename, c.deps)) && fileDeps == old(fileDeps) + [r.value] &&
        depend == old(depend) + c.flags && isCCode == (old(isCCode) && !IsCppSourceName(filename) && !c.sawHpp)
    {
      if IsCppSourceName(filename) {
        isCCode := false;
      }
      var crawled :- GetFileDeps(filename, maxrecurse);
      var deps := Sort(crawled);
      deps := MoveHeaderToFront(Corrected, deps, filename);
      var entry := SourceDeps(filename, deps);
      fileDeps := fileDeps + [entry];
      return Ok(entry);
    }

    /** The discovery loop of `main` over `sorted(os.listdir('.'))`: its outcome is `Discover`'s, and it
        reports whether any source was found. */
    method FindSources(maxrecurse: int) returns (r: Result<bool, Error>)
      requires Valid()
      modifies this
      ensures Valid()
      ensures var total := Discover(fs, CrawlWith(fs, lib, scan, maxrecurse), Sort(fs.listing));
        (total.Err? ==> r == Err(total.error)) &&
        (total.Ok? ==>
          r == Ok(total.value.fileDeps != []) && fileDeps == old(fileDeps) + total.value.fileDeps &&
          depend == old(depend) + total.value.flags && isCCode == (old(isCCode) && !total.value.cleared))
    {
      var hasSourceFiles := false;
      var filenames := Sort(fs.listing);
      ghost var crawl := CrawlWith(fs, lib, scan, maxrecurse);
      ghost var d := Discovery([], [], false);
      var i := 0;
      while i < |filenames|
        invariant 0 <= i <= |filenames|
        invariant Valid()
        invariant Discover(fs, crawl, filenames[..i]) == Ok(d)
        invariant fileDeps == old(fileDeps) + d.fileDeps && depend == old(depend) + d.flags
        invariant isCCode == (old(isCCode) && !d.cleared) && hasSourceFiles == (d.fileDeps != [])
      {
        var filename := filenames[i];
        DiscoverStep(fs, crawl, filenames, i);
        assert crawl(filename) == CrawlFile(fs, lib, scan, filename, maxrecurse);
        if IsSource(fs, filename) {
          hasSourceFiles := true;
          var added := AddSource(filename, maxrecurse);
          if added.Err? {
            DiscoverErrorPersists(fs, crawl, filenames, i + 1);
            return Err(added.error);
          }
          ghost var c := CrawlFile(fs, lib, scan, filename, maxrecurse).value;
          AppendAssociative(old(depend), d.flags, c.flags);
          AppendAssociative(old(fileDeps), d.fileDeps, [added.value]);
          d := Discovery(d.fileDeps + [added.value], d.flags + c.flags, d.cleared || IsCppSourceName(filename) || c.sawHpp);
        }
        i := i + 1;
      }
      assert filenames[..i] == filenames;
      return Ok(hasSourceFiles);
    }
  }
}
