/** The discovery block of `main`: which directory entries are sources, the dependency list each source
    gets (sorted, with its own header first), and what the crawls contribute to `depend` and `isCCode`. */
module Sources {
  import opened Wrappers
  import opened Text
  import opened Ordering
  import opened Errors
  import opened FileSystems
  import opened Libraries
  import opened Crawl

  /** One element of `fileDeps`: a source and the files it depends upon. */
  datatype SourceDeps = SourceDeps(source: string, deps: seq<string>)

  /** The test `deps[i][:-2] == filename[:-4]` as written. It cuts four characters from every source, so
      for a `.c` or `.cc` source it compares with a shortened stem, and a `.hpp` header keeps its `.h`. */
  predicate StemTestAsWritten(dep: string, source: string) {
    DropLast(dep, 2) == DropLast(source, 4)
  }

  /** A source's name without its extension: `[:-2]` for `.c`, `[:-3]` for `.cc`, `[:-4]` otherwise. */
  function SourceStem(source: string): string {
    if EndsWith(source, ".cc") then DropLast(source, 3)
    else if EndsWith(source, ".c") then DropLast(source, 2)
    else DropLast(source, 4)
  }

  /** A source's name is its stem followed by one of the five source extensions. */
  lemma {:induction false} SourceStemSpec(source: string)
    requires IsSourceName(source)
    ensures var r := SourceStem(source);
      source == r + ".c" || source == r + ".cc" || source == r + ".cpp" || source == r + ".cxx" || source == r + ".c++"
  {
  }

  /** The header that belongs to a source: its stem with `.h` or `.hpp`, the pairing the comment at
      supermake.py:293 describes (`monster.cpp` with `monster.h`). */
  predicate IsMatchingHeader(dep: string, source: string) {
    dep == SourceStem(source) + ".h" || dep == SourceStem(source) + ".hpp"
  }

  /** As written, the test misses `foo.h` for `foo.c` and `foo.hpp` for `foo.cpp`, which the corrected
      test pairs. */
  lemma HeaderTestMisses()
    ensures !StemTestAsWritten("foo.h", "foo.c") && IsMatchingHeader("foo.h", "foo.c")
    ensures !StemTestAsWritten("foo.h", "foo.cc") && IsMatchingHeader("foo.h", "foo.cc")
    ensures !StemTestAsWritten("foo.hpp", "foo.cpp") && IsMatchingHeader("foo.hpp", "foo.cpp")
  {
    assert DropLast("foo.h", 2) == "foo" && DropLast("foo.c", 4) == "f";
    assert DropLast("foo.cc", 4) == "fo" && SourceStem("foo.cc") == "foo";
    assert DropLast("foo.hpp", 2) == "foo.h" && DropLast("foo.cpp", 4) == "foo";
  }

  /** For a `.cpp`, `.cxx` or `.c++` source and a `.h` header the two tests agree, so the correction
      changes nothing where the test as written does what the comment says. */
  lemma {:induction false} HeaderTestAgreesForCpp(dep: string, source: string)
    requires IsCppSourceName(source) && EndsWith(dep, ".h")
    ensures StemTestAsWritten(dep, source) <==> IsMatchingHeader(dep, source)
  {
    var stem := SourceStem(source);
    var last := source[|source| - 1];
    assert last != 'c' by {
      if EndsWith(source, ".cpp") || EndsWith(source, ".cxx") || EndsWith(source, ".c++") {
        assert source[|source| - 4..][3] == last;
      }
    }
    assert stem == DropLast(source, 4);
    assert dep == DropLast(dep, 2) + ".h";
    assert dep[|dep| - 1] == 'h' && (stem + ".hpp")[|stem| + 3] == 'p';
    assert dep != stem + ".hpp";
  }

  /** The two forms of the test at supermake.py:293: the code as written, and the pairing its comment
      describes, which the rest of the model uses. */
  datatype HeaderTest = AsWritten | Corrected

  predicate Matches(test: HeaderTest, dep: string, source: string) {
    match test
    case AsWritten => StemTestAsWritten(dep, source)
    case Corrected => IsMatchingHeader(dep, source)
  }

  /** The index at which the reorder loop breaks under `test`: the first matching entry. */
  function MatchingHeader(test: HeaderTest, deps: seq<string>, source: string): (r: Option<nat>)
    ensures r.Some? ==> r.value < |deps| && Matches(test, deps[r.value], source) &&
                        forall k :: 0 <= k < r.value ==> !Matches(test, deps[k], source)
    ensures r.None? ==> forall k :: 0 <= k < |deps| ==> !Matches(test, deps[k], source)
  {
    if deps == [] then None
    else if Matches(test, deps[0], source) then Some(0)
    else match MatchingHeader(test, deps[1..], source)
      case Some(i) => Some(i + 1)
      case None => None
  }

  /** The list after `deps.remove(dep); deps.insert(0, dep)` for the first entry matching under `test`. */
  function WithHeaderFirst(test: HeaderTest, deps: seq<string>, source: string): seq<string> {
    match MatchingHeader(test, deps, source)
    case Some(i) => [deps[i]] + deps[..i] + deps[i + 1..]
    case None => deps
  }

  /** Removing one element keeps a sorted list sorted. */
  lemma {:induction false} SortedWithout(s: seq<string>, i: nat)
    requires i < |s| && Sorted(s)
    ensures Sorted(s[..i] + s[i + 1..])
  {
    var t := s[..i] + s[i + 1..];
    forall a, b | 0 <= a < b < |t| ensures Le(t[a], t[b]) {
      var a' := if a < i then a else a + 1;
      var b' := if b < i then b else b + 1;
      assert t[a] == s[a'] && t[b] == s[b'];
    }
  }

  /** Moving one element to the front is a permutation that leaves the others in their order. */
  lemma {:induction false} MoveToFront(s: seq<string>, i: nat)
    requires i < |s|
    ensures multiset([s[i]] + s[..i] + s[i + 1..]) == multiset(s)
    ensures Sorted(s) ==> Sorted(([s[i]] + s[..i] + s[i + 1..])[1..])
  {
    var r := [s[i]] + s[..i] + s[i + 1..];
    assert s == s[..i] + [s[i]] + s[i + 1..];
    assert r[1..] == s[..i] + s[i + 1..];
    if Sorted(s) {
      SortedWithout(s, i);
    }
  }

  /** With `i` the index of the first matching entry, or `|deps|` when none matches: without a
      matching entry the reorder changes nothing; otherwise the first matching entry comes first and
      the others follow in their old order. Holds for either form of the test. */
  lemma {:induction false} HeaderFirstPlacement(test: HeaderTest, deps: seq<string>, source: string, i: nat)
    requires i <= |deps|
    requires forall k :: 0 <= k < i ==> !Matches(test, deps[k], source)
    requires i == |deps| || Matches(test, deps[i], source)
    ensures WithHeaderFirst(test, deps, source) == if i == |deps| then deps else [deps[i]] + deps[..i] + deps[i + 1..]
  {
    assert MatchingHeader(test, deps, source) == if i == |deps| then None else Some(i);
  }

  /** When the list holds the source's own header, the corrected reorder puts the first one of them at
      the front; otherwise it leaves the list as it is. */
  lemma {:induction false} OwnHeaderFirst(deps: seq<string>, source: string)
    ensures (exists k :: 0 <= k < |deps| && IsMatchingHeader(deps[k], source)) ==>
      var r := WithHeaderFirst(Corrected, deps, source);
      (r[0] == SourceStem(source) + ".h" || r[0] == SourceStem(source) + ".hpp") && r[0] in deps
    ensures (forall k :: 0 <= k < |deps| ==> !IsMatchingHeader(deps[k], source)) ==>
      WithHeaderFirst(Corrected, deps, source) == deps
  {
    match MatchingHeader(Corrected, deps, source)
    case Some(i) =>
      assert WithHeaderFirst(Corrected, deps, source)[0] == deps[i];
    case None =>
  }

  /** The reorder is a permutation, under either form of the test. */
  lemma {:induction false} HeaderFirstPermutation(test: HeaderTest, deps: seq<string>, source: string)
    ensures multiset(WithHeaderFirst(test, deps, source)) == multiset(deps)
  {
    match MatchingHeader(test, deps, source)
    case Some(i) =>
      assert WithHeaderFirst(test, deps, source) == [deps[i]] + deps[..i] + deps[i + 1..];
      MoveToFront(deps, i);
    case None =>
  }

  /** A sorted list stays sorted after its head, under either form of the test. */
  lemma {:induction false} HeaderFirstSortedTail(test: HeaderTest, deps: seq<string>, source: string)
    requires Sorted(deps) && deps != []
    ensures Sorted(WithHeaderFirst(test, deps, source)[1..])
  {
    match MatchingHeader(test, deps, source)
    case Some(i) =>
      assert WithHeaderFirst(test, deps, source) == [deps[i]] + deps[..i] + deps[i + 1..];
      MoveToFront(deps, i);
    case None =>
      SortedTail(deps);
  }

  /** On a two-element list the reorder moves the second entry to the front exactly when it is the
      first that matches. */
  lemma {:induction false} HeaderFirstPair(test: HeaderTest, x: string, y: string, source: string)
    ensures WithHeaderFirst(test, [x, y], source) ==
      if !Matches(test, x, source) && Matches(test, y, source) then [y, x] else [x, y]
  {
    var d: seq<string> := [x, y];
    if Matches(test, x, source) {
      HeaderFirstPlacement(test, d, source, 0);
      assert d[..0] + d[1..] == [y];
    } else if Matches(test, y, source) {
      HeaderFirstPlacement(test, d, source, 1);
      assert d[..1] + d[2..] == [x];
    } else {
      HeaderFirstPlacement(test, d, source, 2);
    }
  }

  /** Which of `bar.h`, `foo.h`, `a.h` and `f.h` each form of the test pairs with `foo.c`. */
  lemma FooCMatches()
    ensures !Matches(AsWritten, "bar.h", "foo.c") && !Matches(AsWritten, "foo.h", "foo.c")
    ensures !Matches(AsWritten, "a.h", "foo.c") && Matches(AsWritten, "f.h", "foo.c")
    ensures !Matches(Corrected, "bar.h", "foo.c") && Matches(Corrected, "foo.h", "foo.c")
    ensures !Matches(Corrected, "a.h", "foo.c") && !Matches(Corrected, "f.h", "foo.c")
  {
    assert DropLast("foo.c", 4) == "f" && SourceStem("foo.c") == "foo";
    assert DropLast("bar.h", 2) == "bar" && DropLast("foo.h", 2) == "foo";
    assert DropLast("a.h", 2) == "a" && DropLast("f.h", 2) == "f";
  }

  /** Two sorted crawl results of `foo.c` on which the reorder as written and the corrected one give
      different lists: as written, `foo.h` stays behind `bar.h`, and `f.h` is taken for the source's
      header because `"f.h"[:-2] == "foo.c"[:-4] == "f"`. */
  lemma HeaderFirstAsWrittenDiffers()
    ensures WithHeaderFirst(AsWritten, ["bar.h", "foo.h"], "foo.c") == ["bar.h", "foo.h"]
    ensures WithHeaderFirst(Corrected, ["bar.h", "foo.h"], "foo.c") == ["foo.h", "bar.h"]
    ensures WithHeaderFirst(AsWritten, ["a.h", "f.h"], "foo.c") == ["f.h", "a.h"]
    ensures WithHeaderFirst(Corrected, ["a.h", "f.h"], "foo.c") == ["a.h", "f.h"]
  {
    FooCMatches();
    HeaderFirstPair(AsWritten, "bar.h", "foo.h", "foo.c");
    HeaderFirstPair(Corrected, "bar.h", "foo.h", "foo.c");
    HeaderFirstPair(AsWritten, "a.h", "f.h", "foo.c");
    HeaderFirstPair(Corrected, "a.h", "f.h", "foo.c");
  }

  /** The element of `fileDeps` for a source whose crawl returned `crawled`. */
  function SourceEntry(name: string, crawled: seq<string>): SourceDeps {
    SourceDeps(name, WithHeaderFirst(Corrected, Sort(crawled), name))
  }

  /** A source's list holds what its crawl returned, once each (the crawl is duplicate-free); after
      a moved header the entries are in sorted order. */
  lemma {:induction false} SourceEntrySpec(name: string, crawled: seq<string>)
    requires Distinct(crawled)
    ensures multiset(SourceEntry(name, crawled).deps) == multiset(crawled)
    ensures Distinct(SourceEntry(name, crawled).deps)
    ensures crawled != [] ==> Sorted(SourceEntry(name, crawled).deps[1..])
  {
    var s := Sort(crawled);
    HeaderFirstPermutation(Corrected, s, name);
    DistinctPermutation(crawled, SourceEntry(name, crawled).deps);
    if crawled != [] {
      assert crawled[0] in multiset(s);
      HeaderFirstSortedTail(Corrected, s, name);
    }
  }

  /** What the discovery loop accumulates: `fileDeps`, the flags appended to `depend`, and whether
      `isCCode` was cleared. */
  datatype Discovery = Discovery(fileDeps: seq<SourceDeps>, flags: seq<string>, cleared: bool)

  /** The crawl of one source, `getFileDeps(filename, maxrecurse)`; the discovery and its properties
      are stated for any such crawl. */
  type SourceCrawl = string -> Result<CrawlResult, Error>

  /** `getFileDeps` with the library table, the scanner and the `--deplevel` budget fixed. */
  function CrawlWith(fs: FileSystem, lib: Table, scan: Scanner, maxrecurse: int): SourceCrawl {
    name => CrawlFile(fs, lib, scan, name, maxrecurse)
  }

  /** The discovery loop over `names` (the sorted listing), crawling each source with `crawl`. */
  function Discover(fs: FileSystem, crawl: SourceCrawl, names: seq<string>): Result<Discovery, Error>
    decreases |names|
  {
    if names == [] then Ok(Discovery([], [], false))
    else
      var prev :- Discover(fs, crawl, names[..|names| - 1]);
      var name := names[|names| - 1];
      if !IsSource(fs, name) then Ok(prev)
      else
        var c :- crawl(name);
        Ok(Discovery(prev.fileDeps + [SourceEntry(name, c.deps)], prev.flags + c.flags,
                     prev.cleared || IsCppSourceName(name) || c.sawHpp))
  }

  /** The sources among `names`, in order. */
  function SourceNames(fs: FileSystem, names: seq<string>): seq<string> {
    if names == [] then []
    else SourceNames(fs, names[..|names| - 1]) +
         (if IsSource(fs, names[|names| - 1]) then [names[|names| - 1]] else [])
  }

  lemma {:induction false} SourceNamesSpec(fs: FileSystem, names: seq<string>)
    ensures forall n :: n in SourceNames(fs, names) <==> n in names && IsSource(fs, n)
  {
    if names != [] {
      var init := names[..|names| - 1];
      SourceNamesSpec(fs, init);
      assert names == init + [names[|names| - 1]];
    }
  }

  /** Filtering a sorted listing keeps it sorted: the sources come in alphabetical order. */
  lemma {:induction false} SourceNamesSorted(fs: FileSystem, names: seq<string>)
    requires Sorted(names)
    ensures Sorted(SourceNames(fs, names))
    decreases |names|
  {
    if names != [] {
      var init := names[..|names| - 1];
      var last := names[|names| - 1];
      assert Sorted(init) by {
        assert forall i :: 0 <= i < |init| ==> init[i] == names[i];
      }
      SourceNamesSorted(fs, init);
      SourceNamesSpec(fs, init);
      var prev := SourceNames(fs, init);
      if IsSource(fs, last) {
        forall i, j | 0 <= i < j < |prev| + 1 ensures Le((prev + [last])[i], (prev + [last])[j]) {
          if j == |prev| {
            assert prev[i] in init;
            var k :| 0 <= k < |init| && init[k] == prev[i];
            assert Le(names[k], names[|names| - 1]);
          } else {
            assert (prev + [last])[i] == prev[i] && (prev + [last])[j] == prev[j];
          }
        }
      }
    }
  }

  /** A successful discovery has one entry per source of the listing, in listing order, each built from
      that source's crawl. */
  lemma {:induction false} DiscoverEntries(fs: FileSystem, crawl: SourceCrawl, names: seq<string>)
    requires Discover(fs, crawl, names).Ok?
    ensures var d := Discover(fs, crawl, names).value;
      var sources := SourceNames(fs, names);
      |d.fileDeps| == |sources| &&
      forall i :: 0 <= i < |d.fileDeps| ==>
        d.fileDeps[i].source == sources[i] && crawl(sources[i]).Ok? &&
        d.fileDeps[i] == SourceEntry(sources[i], crawl(sources[i]).value.deps)
    decreases |names|
  {
    if names != [] {
      var init := names[..|names| - 1];
      var name := names[|names| - 1];
      DiscoverEntries(fs, crawl, init);
      var prev := Discover(fs, crawl, init).value;
      var d := Discover(fs, crawl, names).value;
      if IsSource(fs, name) {
        var c := crawl(name).value;
        assert d.fileDeps == prev.fileDeps + [SourceEntry(name, c.deps)];
        assert SourceNames(fs, names) == SourceNames(fs, init) + [name];
      } else {
        assert d == prev;
        assert SourceNames(fs, names) == SourceNames(fs, init);
      }
    }
  }

  /** There are no entries exactly when the listing holds no source. */
  lemma {:induction false} DiscoverEmpty(fs: FileSystem, crawl: SourceCrawl, names: seq<string>)
    requires Discover(fs, crawl, names).Ok?
    ensures Discover(fs, crawl, names).value.fileDeps == [] <==> forall n :: n in names ==> !IsSource(fs, n)
  {
    DiscoverEntries(fs, crawl, names);
    SourceNamesSpec(fs, names);
    var sources := SourceNames(fs, names);
    if sources != [] {
      assert sources[0] in sources;
    }
  }

  /** `isCCode` is cleared exactly when some source is C++ by its extension or its crawl met a `.hpp`
      include; `.cc` and `.c` sources alone leave it set. */
  lemma {:induction false} DiscoverLanguage(fs: FileSystem, crawl: SourceCrawl, names: seq<string>)
    requires Discover(fs, crawl, names).Ok?
    ensures Discover(fs, crawl, names).value.cleared <==>
      exists n :: n in names && IsSource(fs, n) && (IsCppSourceName(n) || (crawl(n).Ok? && crawl(n).value.sawHpp))
    decreases |names|
  {
    if names != [] {
      var init := names[..|names| - 1];
      var name := names[|names| - 1];
      DiscoverLanguage(fs, crawl, init);
      assert forall n :: n in names <==> n in init || n == name by {
        assert names == init + [name];
      }
      var prev := Discover(fs, crawl, init).value;
      if IsSource(fs, name) {
        var c := crawl(name).value;
        assert Discover(fs, crawl, names).value.cleared == (prev.cleared || IsCppSourceName(name) || c.sawHpp);
      }
    }
  }

  /** The flags appended to `depend` are exactly those appended by the crawls of the sources. */
  lemma {:induction false} DiscoverFlags(fs: FileSystem, crawl: SourceCrawl, names: seq<string>, f: string)
    requires Discover(fs, crawl, names).Ok?
    ensures f in Discover(fs, crawl, names).value.flags <==>
      exists n :: n in names && IsSource(fs, n) && crawl(n).Ok? && f in crawl(n).value.flags
    decreases |names|
  {
    if names != [] {
      var init := names[..|names| - 1];
      DiscoverFlags(fs, crawl, init, f);
      assert names == init + [names[|names| - 1]];
    }
  }

  /** Discovery fails exactly when the crawl of some source fails, and then with the error of the first
      such source in listing order. */
  lemma {:induction false} DiscoverError(fs: FileSystem, crawl: SourceCrawl, names: seq<string>)
    ensures Discover(fs, crawl, names).Err? <==>
      exists i :: 0 <= i < |names| && IsSource(fs, names[i]) && crawl(names[i]).Err?
    ensures Discover(fs, crawl, names).Err? ==>
      exists i :: 0 <= i < |names| && IsSource(fs, names[i]) && crawl(names[i]).Err? &&
        Discover(fs, crawl, names).error == crawl(names[i]).error &&
        forall k :: 0 <= k < i && IsSource(fs, names[k]) ==> crawl(names[k]).Ok?
    decreases |names|
  {
    if names != [] {
      var init := names[..|names| - 1];
      DiscoverError(fs, crawl, init);
      assert forall k :: 0 <= k < |init| ==> init[k] == names[k];
    }
  }

  /** Once a prefix of the listing fails, the whole discovery fails with the same error. */
  lemma {:induction false} DiscoverErrorPersists(fs: FileSystem, crawl: SourceCrawl, names: seq<string>, i: nat)
    requires i <= |names|
    requires Discover(fs, crawl, names[..i]).Err?
    ensures Discover(fs, crawl, names) == Discover(fs, crawl, names[..i])
    decreases |names| - i
  {
    if i < |names| {
      var longer := names[..i + 1];
      assert longer[..|longer| - 1] == names[..i];
      assert Discover(fs, crawl, longer) == Discover(fs, crawl, names[..i]);
      DiscoverErrorPersists(fs, crawl, names, i + 1);
    } else {
      assert names[..i] == names;
    }
  }

  /** One step of the discovery loop, in terms of the crawl of the next entry. */
  lemma {:induction false} DiscoverStep(fs: FileSystem, crawl: SourceCrawl, names: seq<string>, i: nat)
    requires i < |names| && Discover(fs, crawl, names[..i]).Ok?
    ensures var prev := Discover(fs, crawl, names[..i]).value;
      var step := Discover(fs, crawl, names[..i + 1]);
      (!IsSource(fs, names[i]) ==> step == Ok(prev)) &&
      (IsSource(fs, names[i]) && crawl(names[i]).Err? ==> step == Err(crawl(names[i]).error)) &&
      (IsSource(fs, names[i]) && crawl(names[i]).Ok? ==>
        step == Ok(Discovery(prev.fileDeps + [SourceEntry(names[i], crawl(names[i]).value.deps)],
                             prev.flags + crawl(names[i]).value.flags,
                             prev.cleared || IsCppSourceName(names[i]) || crawl(names[i]).value.sawHpp)))
  {
    assert names[..i + 1][..i] == names[..i];
  }

  /** The discovery sees the snapshot only through its directories and the crawl. */
  lemma {:induction false} DiscoverListingFree(fs: FileSystem, fs2: FileSystem, crawl: SourceCrawl, crawl2: SourceCrawl,
                                               names: seq<string>)
    requires fs2.dirs == fs.dirs
    requires forall n :: crawl2(n) == crawl(n)
    ensures Discover(fs2, crawl2, names) == Discover(fs, crawl, names)
    decreases |names|
  {
    if names != [] {
      DiscoverListingFree(fs, fs2, crawl, crawl2, names[..|names| - 1]);
    }
  }

  /** The crawl of one file reads only the file contents and the existing names, not the listing. */
  lemma {:induction false} CrawlWithListingFree(fs: FileSystem, fs2: FileSystem, lib: Table, scan: Scanner, maxrecurse: int)
    requires fs2.files == fs.files && fs2.existing == fs.existing
    ensures forall n :: CrawlWith(fs2, lib, scan, maxrecurse)(n) == CrawlWith(fs, lib, scan, maxrecurse)(n)
  {
    forall n ensures CrawlWith(fs2, lib, scan, maxrecurse)(n) == CrawlWith(fs, lib, scan, maxrecurse)(n) {
      CrawlListingFree(fs, fs2, lib, scan, n, maxrecurse);
    }
  }

  /** The discovery over the sorted listing does not depend on the listing's order. */
  lemma {:induction false} CrawlSortedListingFree(fs: FileSystem, fs2: FileSystem, lib: Table, scan: Scanner, maxrecurse: int)
    requires fs2.files == fs.files && fs2.existing == fs.existing && fs2.dirs == fs.dirs
    requires multiset(fs2.listing) == multiset(fs.listing)
    ensures Discover(fs2, CrawlWith(fs2, lib, scan, maxrecurse), Sort(fs2.listing)) ==
            Discover(fs, CrawlWith(fs, lib, scan, maxrecurse), Sort(fs.listing))
  {
    SortPermutationInvariant(fs.listing, fs2.listing);
    CrawlWithListingFree(fs, fs2, lib, scan, maxrecurse);
    DiscoverListingFree(fs, fs2, CrawlWith(fs, lib, scan, maxrecurse), CrawlWith(fs2, lib, scan, maxrecurse), Sort(fs.listing));
  }
}
