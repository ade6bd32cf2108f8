# Supermake in Dafny

Supermake (`supermake.py`) writes a makefile for the C and C++ sources of the current directory. A run
goes through these steps:

1. It checks the command line.
2. It finds the source files.
3. It crawls each source's `#include` lines recursively to collect the local headers the source depends
   on. `#include` lines naming a known third-party header add that library's linker flags to `depend`.
4. It decides between C and C++.
5. It names the binary or the library.
6. It assembles the makefile text.

This project models those steps and proves what they guarantee.

The run is modelled over a snapshot of the directory, `FileSystems.FileSystem`. The snapshot holds:

- the text of every readable file;
- the paths `os.path.exists` accepts;
- the directories;
- the listing in the order `os.listdir` returns it.

The modules follow the program's structure:

- `Options`
  - The validator `filterCommandlineOptionDescrepency`, as the function `ValidationError` and the method
    `FilterOptions` with its three loops.
  - The last-match-wins option loops (`LastCapture` and `LastMatch`).
  - `--deplevel=` (`Deplevel`, `DeplevelOption`).
  - The `lib` prefixing of library names (`LibraryName`).
- `Includes`
  - The two `#include` regular expressions as exact line scanners.
  - Lemmas saying what each scanner captures.
  - A directive must start at the start of a line.
  - The angle form captures up to the last `>`.
  - The quoted form tries the longest capture ending in `.h` or `.hpp` before a `"`.
- `Libraries`: the `librarys` table and the flags a run of `depend.extend(librarys[case])` appends.
- `Crawl`: `getFileDeps` as a function of the snapshot, `CrawlFile` and its loop `CrawlQuoted`. It yields:
  - the returned list;
  - the flags appended to `depend`;
  - whether `isCCode` was cleared.
- `CrawlerState.Crawler`: the globals `depend`, `isCCode`, `fileCache` and `fileDeps` as fields of a class.
  - `GetFileFromCache` fills the cache lazily and reads each file at most once.
  - `GetFileDeps`, `CrawlIncludes`, `AddSource` and `FindSources` are the loops of the source.
  - Each is proved against the functions of `Crawl` and `Sources`.
- `Sources`
  - The discovery loop of `main` (`Discover`).
  - The move of a source's own header to the front of its sorted list (the method
    `CrawlerState.MoveHeaderToFront` and the function `WithHeaderFirst`), under the test as written or
    the corrected one.
  - What the loop accumulates.
- `BinaryName`: the chain of naming strategies and strategies 3 to 6.
- `Makefiles`: the makefile text, section by section. The `+=` steps build it (`BuildMakefile`), and
  lemmas describe its line structure.
- `Supermake`: `main` as one function of the command line and the snapshot.
  - `Pipeline` takes any library table and include scanner.
  - `Generate` is the program's own instance.
  - The method `Execute` runs the statement sequence that computes it.
  - Lemmas state what a run produces or why it stops.

Python's `sorted` on strings is `Ordering.Sort`, by code point. `list(set(s))` has an unspecified order;
it is modelled as `Ordering.Dedup`, which keeps first occurrences. The program sorts or only tests
membership after every such call. The `os.path` functions follow CPython's `posixpath`.

Two details follow the code as written, which may not be what was meant:

- **The order of the guessing chain.** The `else:` that sets `crazyGuesswork` (supermake.py:339-340) is
  indented to belong to the test after strategy 3, not the one after strategy 2. The flag is therefore
  set only when strategy 3 gives a name, and strategy 3 never does (`BinaryName.CrazyGuessworkNeverSet`).
- **The first crawl of a header wins.** The quoted-include loop skips an include whose text is already
  in its list (`case not in deps`, supermake.py:190), even when a nested crawl put it there with less
  budget left. So what a header contributes can depend on the order of the includes.
  `Crawl.FirstReachWins` shows this with `--deplevel=2`:
  - `a.h` includes `b.h`, and `b.h` includes a library key.
  - `x.c` includes `a.h` and then `b.h`. It reaches `b.h` through `a.h`'s crawl, which has no level left
    to read `b.h`. It then skips its own include of `b.h`, so the library's flags never reach `depend`.
  - `y.c` includes the same two headers the other way round and gets the flags.

Two defects of the source are modelled as evidently intended, and each is shown alongside the code as
written (see "## Findings"): the `.hpp` test of supermake.py:185, and the header-first test of
supermake.py:293.

## Model

| member | source | states |
|---|---|---|
| Text.DropLast | supermake.py:293 | `s[:-n]` keeps all but the last `n` characters (none when `s` is shorter), as a prefix of `s` |
| Ordering.Sort | supermake.py:285 | `sorted(s)` is ordered by Python's string comparison and is a permutation of `s` |
| Ordering.SortedUnique | supermake.py:285 | two sorted lists with the same elements are equal |
| Ordering.SortPermutationInvariant | supermake.py:285 | sorting permutations of each other gives the same list |
| Ordering.SortSameElements | supermake.py:285 | `sorted(s)` holds exactly the elements of `s` |
| Ordering.DedupSpec | supermake.py:194 | the de-duplicated list has no repeats and exactly the elements of its input |
| Ordering.Normalise | supermake.py:304-305 | `sorted(list(set(depend)))` |
| Ordering.NormaliseSpec | supermake.py:304-305 | `sorted(list(set(s)))` is strictly increasing and holds exactly the elements of `s` |
| Ordering.NormaliseDeterministic | supermake.py:304-305 | the normalised list depends only on which elements occur |
| Paths.Basename | supermake.py:313 | `basename` has no slash and ends its argument |
| Paths.DirnameShape | supermake.py:192 | `split(p)[0]` is empty, all slashes, or does not end in a slash |
| Paths.JoinThenSplit | supermake.py:313-315 | joining a directory part with a plain name and taking the path apart gives both back |
| Paths.NormPath | supermake.py:192 | `normpath` never returns the empty string |
| Paths.PlainNameIsNormal | supermake.py:192 | a plain file name is its own `normpath` |
| Libraries.LibrarysFlags | supermake.py:72-101 | every flag in the program's table is a `-l` linker option |
| Libraries.LibraryFlags | supermake.py:179-181 | the flags a run of `depend.extend(librarys[case])` over the includes appends, in order |
| Libraries.LibraryFlagsSpec | supermake.py:179-181 | every appended flag belongs to a key among the includes; every key among them contributes all its flags; a non-key contributes nothing |
| Includes.AngleCaptureSpec | supermake.py:178 | the angle capture is the non-empty text between `#include <` at the line start and the line's last `>` |
| Includes.QuotedCaptureSpec | supermake.py:182 | the quoted capture follows `#include "` at the line start, ends in `.h` or `.hpp` right before a `"`, and is the longest such capture |
| Includes.CapturesOfSpec | supermake.py:178-182 | a capture comes from some line, and every matching line contributes its capture |
| Includes.CapturesOfAppend | supermake.py:178-182 | the captures of two runs of lines are those of the first followed by those of the second, so they come in line order |
| Includes.FindIncludes | supermake.py:178-182 | `re.findall` of the angle or the quoted pattern under `re.MULTILINE` |
| Crawl.CrawlFile | supermake.py:170-195 | `getFileDeps`: nothing below a budget of 1; otherwise a `ReadError` for an unreadable file, or the angle includes' flags followed by the quoted-include loop with the decremented budget |
| Crawl.CrawlQuoted | supermake.py:182-194 | the quoted-include loop: the `.hpp` test, the table flags of a key, and, for an existing unseen non-key, its recorded path, its crawl and the de-duplication |
| Crawl.HppTestAsWritten | supermake.py:185 | under Python 3 the chained test raises exactly for includes ending in `.hpp` and is never true |
| Crawl.HppTestRaises | supermake.py:185 | `#include "util.hpp"` meets the intended test yet raises as written |
| Crawl.CrawlWithoutBudget | supermake.py:173-176 | with `maxrecurse <= 0` the crawl returns `[]`, appends no flag and leaves `isCCode` alone |
| Crawl.LibraryIncludeStep | supermake.py:187-188 | a quoted include that is a library key only appends that key's flags |
| Crawl.MissingIncludeStep | supermake.py:189-191 | a quoted include that is neither a key nor an existing path is skipped |
| Crawl.CrawlDistinct | supermake.py:183-194 | the returned list holds no path twice |
| Crawl.CrawlSound | supermake.py:189-193 | every returned path is the recorded path `join(dirname(file), normpath(c))` of an existing non-key quoted include `c`, or came from `c`'s crawl with the decremented budget |
| Crawl.DirectOnlyAtDepthOne | supermake.py:173-193 | with a budget of 1 only direct includes are recorded |
| Crawl.CrawlComplete | supermake.py:189-194 | every existing non-key quoted include of the file ends up in the returned list; the recursive half is `CrawlNested` |
| Crawl.CrawlQuotedSplit | supermake.py:183-194 | the quoted-include loop over two runs of includes is the loop over the first, continued over the second from the state it reached |
| Crawl.LoopBeforeOk | supermake.py:183-194 | a crawl that succeeds passes every point of its quoted-include loop without an error |
| Crawl.CrawlNested | supermake.py:189-194 | an existing non-key quoted include that is not in the local list when the loop reaches it is crawled with the decremented budget; that crawl succeeds, and its recorded path, every path it returns and every flag it appends reach the result |
| Crawl.CrawlNestedFlags | supermake.py:178-193 | a library key included, angle or quoted, by a header that the loop crawls contributes all of its flags to the including file's crawl |
| Crawl.FileStep | supermake.py:173-183 | a file with budget left is its quoted-include loop, started with the flags of its angle includes |
| Crawl.NewIncludeStep | supermake.py:189-194 | an existing non-key include not yet listed is crawled, and its path, its crawl's paths, flags and `.hpp` flag join the loop's state |
| Crawl.ListedIncludeStep | supermake.py:189-190 | a non-key include whose text is already listed is skipped |
| Crawl.RecordedPlain | supermake.py:192 | a plain header of a file in the current directory is recorded under its own name |
| Crawl.FirstReachWins | supermake.py:183-194 | with `--deplevel=2`, a file including `a` then `b` (where `a` includes `b` and `b` a library key) returns `[a, b]` without the key's flags; including `b` then `a` returns `[b, a]` with them |
| Crawl.CrawlFileFlagsSound | supermake.py:178-188 | every flag a crawl appends is a flag of some library key |
| Crawl.CrawlFlags | supermake.py:178-188 | an angle or quoted include of the file that is a key contributes all of its flags; keys of nested headers are `CrawlNestedFlags` |
| Crawl.CrawlLanguage | supermake.py:184-186 | a quoted `.hpp` include clears `isCCode`; otherwise only a nested crawl can clear it |
| Crawl.CrawlListingFree | supermake.py:170-195 | the crawl depends on the file texts and the existence test, not on the listing |
| Sources.SourceStemSpec | supermake.py:293 | a source's name is its stem followed by one of the five source extensions |
| Sources.StemTestAsWritten | supermake.py:293 | the test `deps[i][:-2] == filename[:-4]` as written, kept for the finding below |
| Sources.HeaderTestMisses | supermake.py:293 | as written the test misses `foo.h` for `foo.c` and `foo.cc`, and `foo.hpp` for `foo.cpp`; the corrected test pairs them |
| Sources.HeaderTestAgreesForCpp | supermake.py:293 | for a `.cpp`, `.cxx` or `.c++` source and a `.h` header the test as written and the corrected test agree |
| Sources.FooCMatches | supermake.py:293 | for `foo.c`, the test as written pairs `f.h` and not `foo.h`; the corrected test pairs `foo.h` and not `f.h`; neither pairs `bar.h` or `a.h` |
| Sources.HeaderFirstPair | supermake.py:292-297 | on a two-entry list, under either test, the second entry moves to the front exactly when it matches and the first does not |
| Sources.HeaderFirstAsWrittenDiffers | supermake.py:291-297 | for `foo.c` the reorder as written keeps `[bar.h, foo.h]` and turns `[a.h, f.h]` into `[f.h, a.h]`; the corrected reorder gives `[foo.h, bar.h]` and keeps `[a.h, f.h]` |
| Sources.MatchingHeader | supermake.py:292-297 | under the chosen test, the index the reorder loop stops at: the first entry that passes it, or none; the model's entries use the corrected test (the source's stem with `.h` or `.hpp`), while the loop as written stops at the first `deps[i][:-2] == filename[:-4]` |
| Sources.OwnHeaderFirst | supermake.py:292-297 | when the list holds the source's own header, the reorder puts it at the front; otherwise the list is unchanged |
| Sources.WithHeaderFirst | supermake.py:292-297 | `remove` and `insert(0, ...)` of the first entry passing the chosen test; `SourceEntry` uses the corrected test, `HeaderFirstAsWrittenDiffers` compares it with the test as written |
| Sources.HeaderFirstPlacement | supermake.py:292-297 | under either test, the first matching entry moves to index 0 and the rest keep their order; no match leaves the list unchanged |
| Sources.HeaderFirstPermutation | supermake.py:294-296 | under either test, the reorder is a permutation |
| Sources.HeaderFirstSortedTail | supermake.py:291-297 | under either test, after the reorder the entries after index 0 are sorted |
| Sources.SourceEntrySpec | supermake.py:291-298 | a source's list is a duplicate-free permutation of what its crawl returned, sorted after its head |
| Sources.SourceNamesSpec | supermake.py:286-287 | the sources among the entries are exactly the non-directory entries with a source extension |
| Sources.SourceNamesSorted | supermake.py:285-287 | the sources of a sorted listing are in sorted order |
| Sources.Discover | supermake.py:284-298 | the discovery loop over the entries: each source's C++ extension test, its crawl and its entry, stopping at the first failing crawl |
| Sources.DiscoverEntries | supermake.py:284-298 | one entry per source, in listing order, each built from that source's crawl |
| Sources.DiscoverEmpty | supermake.py:284-300 | there are no entries exactly when the listing holds no source |
| Sources.DiscoverLanguage | supermake.py:286-290 | `isCCode` is cleared exactly when some source has a C++ extension or its crawl met a `.hpp` include |
| Sources.DiscoverFlags | supermake.py:286-291 | the accumulated flags are exactly those the sources' crawls appended |
| Sources.DiscoverError | supermake.py:286-291 | discovery fails exactly when some source's crawl fails, with the first failing source's error |
| Sources.DiscoverListingFree | supermake.py:286-291 | discovery reads the crawl and the directories only |
| Sources.CrawlSortedListingFree | supermake.py:285 | discovery over the sorted listing does not depend on the listing's order |
| CrawlerState.MoveHeaderToFront | supermake.py:292-297 | the remove/insert loop under the chosen test computes `WithHeaderFirst`; `AddSource` runs it with the corrected test, so it stops elsewhere than the loop as written for `.c` and `.cc` sources and `.hpp` headers |
| CrawlerState.Crawler.constructor | supermake.py:104-117 | the globals start empty, with `isCCode` set |
| CrawlerState.Crawler.GetFileFromCache | supermake.py:119-124 | returns the file's text or a read error; a file is read and cached only on its first request |
| CrawlerState.Crawler.AddLibraryFlags | supermake.py:179-181 | the angle loop appends `LibraryFlags` of the includes to `depend` |
| CrawlerState.Crawler.GetFileDeps | supermake.py:170-195 | returns what `CrawlFile` returns, appends its flags to `depend`, clears `isCCode` when it saw `.hpp`; with no budget the cache is untouched |
| CrawlerState.Crawler.CrawlIncludes | supermake.py:182-195 | the quoted-include loop computes `CrawlQuoted` on the global state |
| CrawlerState.Crawler.AddSource | supermake.py:287-298 | one source clears `isCCode` for a C++ extension, is crawled, and its entry is appended to `fileDeps` |
| CrawlerState.Crawler.FindSources | supermake.py:284-299 | the discovery loop leaves `fileDeps`, `depend` and `isCCode` as `Discover` says, or stops with its error |
| Options.ValidationError | supermake.py:127-168 | `filterCommandlineOptionDescrepency`: the first complaint of the validator, in its order, or none |
| Options.LastCapture | supermake.py:278-281 | an option loop: the group of the last argument that matches |
| Options.Deplevel | supermake.py:277-281 | `maxrecurse`: 15, or the value of the last `--deplevel=<digits>` |
| Options.LibraryName | supermake.py:313-315 | `lib` put before the basename when it does not start with it |
| Options.SearchSpec | supermake.py:130 | `re.search(key + 'C+', arg)` finds the leftmost key followed by a class character, and its group is the whole run there |
| Options.LastCaptureSpec | supermake.py:278-281 | an option's value comes from a matching argument after which none matches; no value exactly when none matches |
| Options.LastMatch | supermake.py:321-324 | the option loop ends with the last matching argument's group |
| Options.FirstInvalid | supermake.py:143-152 | the index of the first argument after `argv[0]` that matches no pattern |
| Options.ValidationSpec | supermake.py:127-168 | the validator accepts exactly command lines with all arguments valid and none of the four forbidden combinations, and reports the first invalid argument |
| Options.ArgumentIsValid | supermake.py:144-149 | the pattern loop accepts exactly the arguments with a line wholly matching a listed pattern |
| Options.OptionSpecified | supermake.py:128-139 | the flag loop is set exactly when some argument, `argv[0]` included, matches `key.+` |
| Options.FindInvalidArgument | supermake.py:143-152 | the argument loop stops at the first invalid argument |
| Options.FilterOptions | supermake.py:127-168 | the validator's statements return `ValidationError` |
| Options.Decimal | supermake.py:281 | the digit text of `n`, a non-empty run of digits, which the `int()` of line 281 turns back into `n` |
| Options.DigitsValue | supermake.py:281 | `int()` of a run of decimal digits |
| Options.DigitsOfDecimal | supermake.py:281 | `int(str(n)) == n` |
| Options.LeadingZero | supermake.py:281 | leading zeros do not change `int` |
| Options.DeplevelOption | supermake.py:277-281 | the `--deplevel=` loop computes `Deplevel` |
| Options.DeplevelSpec | supermake.py:277-281 | the budget is 15 without `--deplevel=<digits>`, and a trailing `--deplevel=n` sets it to `n` |
| Options.LibraryNameSpec | supermake.py:313-316 | the library's file name starts with `lib`; a name without it gains exactly that prefix in the same directory; naming is idempotent |
| BinaryName.Strategy5 | supermake.py:243-250 | strategy 5 over the directory entries |
| BinaryName.GuessBinary | supermake.py:325-340 | the nested guessing chain and its `crazyGuesswork` flag |
| BinaryName.Strategy5Spec | supermake.py:243-250 | strategy 5 fails exactly when some non-directory source is not named `main...`, else gives `main.run` |
| BinaryName.Strategy5OrderFree | supermake.py:245-249 | strategy 5 does not depend on the listing's order |
| BinaryName.Strategy5ListingFree | supermake.py:243-250 | strategy 5 sees only the entries and the directories |
| BinaryName.FirstTruthySpec | supermake.py:325-340 | the reference chain gives a name exactly when some strategy does, and then the first one's |
| BinaryName.GuessIsFirstTruthy | supermake.py:325-340 | the nested chain picks the first strategy that gives a name, and always gives one |
| BinaryName.GuessMain | supermake.py:335-338 | with strategies 1 and 2 failing the binary is `main.run`, or `program.run` when another source exists |
| BinaryName.CrazyGuessworkNeverSet | supermake.py:326-340 | `crazyGuesswork` is never set |
| Makefiles.MakefileText | supermake.py:354-419 | the makefile text: notice, `OBJS`, `CUSTOMFLAGS`, `FLAGS`, the target rules, the compile rules and `clean` |
| Makefiles.FlagsLineLists | supermake.py:369-385 | splitting the `FLAGS` line at spaces gives `FLAGS`, `=`, the `--usrlocal` option, every flag of `depend` in order, then `-g -DDEBUG`, `-Wall` and `$(CUSTOMFLAGS)` as the options ask |
| Makefiles.Objects | supermake.py:359-363 | one object name per source, in order, with 2 or 4 characters stripped |
| Makefiles.BuildMakefile | supermake.py:354-419 | the `+=` statements build `MakefileText` |
| Makefiles.HeaderSection | supermake.py:355-356 | the notice step |
| Makefiles.ObjsSection | supermake.py:358-364 | the `OBJS` loop |
| Makefiles.CustomSection | supermake.py:366-367 | the `CUSTOMFLAGS` step |
| Makefiles.FlagsSection | supermake.py:369-385 | the `FLAGS` steps |
| Makefiles.TargetSection | supermake.py:387-404 | the binary or library rules |
| Makefiles.RulesSection | supermake.py:407-414 | the compile-rule loop |
| Makefiles.CleanSection | supermake.py:416-419 | the `clean` rule |
| Makefiles.RulesShape | supermake.py:407-414 | the rules are exactly a rule line, a command line and an empty line per source, in order |
| Makefiles.MakefileLayout | supermake.py:354-419 | the text is the notice, then line-terminated body lines, then the unterminated clean command |
| Makefiles.MakefileHeader | supermake.py:355-356 | the notice opens the makefile exactly when `header` holds; otherwise it opens with `OBJS =` |
| Makefiles.MakefileSplit | supermake.py:354-419 | splitting the text after the notice at line breaks gives exactly the body lines |
| Makefiles.MakefileBody | supermake.py:358-419 | the `OBJS` line comes first, then one rule block per source in order after the preamble, and the `clean` rule last |
| Makefiles.ObjsLineLists | supermake.py:358-364 | splitting the `OBJS` line at spaces gives `OBJS`, `=` and every source's object, in order |
| Supermake.Configure | supermake.py:304-351 | what `main` decides after discovery: the normalised flags, the library or binary name and the settings |
| Supermake.Pipeline | supermake.py:257-419 | `main` for any library table and include scanner: the checks, discovery, configuration and the makefile text |
| Supermake.Generate | supermake.py:257-419 | `main` with the program's own table and scanner |
| Supermake.LibraryLoop | supermake.py:307-316 | the `--lib=` loop computes `LibraryOption` |
| Supermake.Execute | supermake.py:257-419 | the statements of `main` compute `Generate` |
| Supermake.CheckCommandLine | supermake.py:270-274 | the help test and the validator compute `CommandLineError` |
| Supermake.FindSourceFiles | supermake.py:270-302 | `main` up to the end of discovery, over a fresh `Crawler`, computes `Discovered` |
| Supermake.CrawlSources | supermake.py:283-302 | the discovery loop and the `hasSourceFiles` test give `Discover`'s result or `NoSourceFiles` |
| Supermake.NameBinary | supermake.py:318-345 | the `--binary=` loop and the guessing block compute `BinaryChoice` |
| Supermake.ConfigureOptions | supermake.py:304-351 | the statements after discovery compute `Configure` |
| Supermake.DiscoveredOutcome | supermake.py:283-302 | after the checks, discovery succeeds exactly when a source exists and every source's crawl succeeds; with no source it fails with `NoSourceFiles`, otherwise with the first failing source's error |
| Supermake.PipelineOk | supermake.py:304-419 | a successful run writes the configuration of the discovery and the makefile built from it |
| Supermake.PipelineStops | supermake.py:270-302 | a help token stops the run first, then the validator's first complaint, then a missing source or a failing crawl |
| Supermake.DiscoveredEntries | supermake.py:284-298 | one entry per source, in alphabetical order, each from that source's crawl with the `--deplevel` budget |
| Supermake.DiscoveredFlags | supermake.py:286-291 | the collected flags are exactly those the sources' crawls appended, each a table flag |
| Supermake.DiscoveredLanguage | supermake.py:286-290 | `isCCode` survives exactly when no source has a C++ extension and no crawl met `.hpp` |
| Supermake.PipelineEntries | supermake.py:284-298 | the makefile's entries are one per source, sorted, each from its crawl |
| Supermake.PipelineFlags | supermake.py:304-305 | `depend` is strictly increasing and holds exactly the flags the crawls collected, each a table flag |
| Supermake.PipelineLanguage | supermake.py:286-290 | the project is C exactly when no source has a C++ extension and no crawl met `.hpp` |
| Supermake.OptionOrEmptySpec | supermake.py:347-351 | an option's value is empty exactly when no argument matches, otherwise the last match's group |
| Supermake.LibraryOptionSpec | supermake.py:307-316 | a library is built exactly when some `--lib=` gives a name, under the last such name with `lib` prefixed |
| Supermake.ConfigureTarget | supermake.py:307-345 | library iff `--lib=` names one, then without guessing; otherwise the last `--binary=` or the first successful strategy, never marked as crazy guesswork |
| Supermake.ConfigureSettings | supermake.py:347-356 | custom flags are the last `--custom=` text; the notice is written unless `--print` or `--descrete` |
| Supermake.PipelineTarget | supermake.py:307-345 | what is built, end to end |
| Supermake.PipelineSettings | supermake.py:347-356 | the custom flags and the notice, end to end |
| Supermake.DiscoveredListingFree | supermake.py:285 | the discovery does not depend on the order `os.listdir` returns |
| Supermake.ConfigureListingFree | supermake.py:245 | nor do the names and the settings |
| Supermake.PipelineListingFree | supermake.py:285 | the makefile, or the reason to stop, does not depend on the listing's order |

## Left out

- File and process I/O.
  - The actual `open`/`read` is left out; the snapshot's `files` map replaces it.
  - Console output is left out: `message`, `print`, the usage text and `--quiet`.
  - The Python version check is left out.
  - Reading, renaming and writing `makefile` is left out, as are `--autoclean`, `make` and running the
    binary (supermake.py:421-460).
  - A successful run ends with the makefile text. A stop is an `Errors.Error` value.
- Binary-name strategies 1 and 2 look at the working directory and at licence text. They are the inputs
  `s1` and `s2` of `Pipeline`.
- Everything the program does not handle is left out.
  - An uncaught exception, such as an `open` that fails, is the error value `ReadError`, and nothing
    afterwards is modelled.
  - The include scanner and the library table are parameters of the crawl and of `Pipeline`, so that the
    proofs hold for any of them. `Generate` fixes them to `Includes.FindIncludes` and
    `Libraries.Librarys`.
- Regular expressions are modelled only as far as the program's own patterns need.
  - `\d` is narrowed to the ASCII digits; Python 3 also accepts the other Unicode decimal digits.
  - `\s` and `\S` are modelled exactly: `\s` is the full set of characters Python 3's `str.isspace` accepts.
  - The model has no general regex engine.
- `list(set(...))` is modelled as a deterministic order, first occurrences first. Python leaves this
  order unspecified. It is never visible, because the program sorts afterwards or only tests membership.
- Makefiles.MakefileSplit: requires that no body line holds a line break. A `--custom=` value, a
  `--binary=` or `--lib=` name and an include path cannot hold one. A source name from the directory
  listing, or a binary name guessed by strategy 1 or 2, could.
- CrawlerState.Crawler.GetFileDeps: states the cache only through `Valid()`: cached text is the file's
  text, and each file is read at most once. Which files a crawl with a positive budget reads is not
  stated.
- CrawlerState.Crawler.FindSources: on an error its contract gives the result only, not the partly
  updated globals. The program dies at that point.
- Crawl.CrawlFile: ignores the interpreter's recursion limit (1000 frames by default in CPython). A
  crawl nested about 1000 calls deep raises `RecursionError` in the program but succeeds in the model.
  `--deplevel=2000` with two headers that include each other reaches that depth.
- Integers are unbounded in both Python and the model, so `--deplevel` values have no width to model. The
  recursion limit above is the only bound the program meets.

## Findings

| source | as written | input that shows it | evidently intended | confidence | as-written member | corrected member |
|---|---|---|---|---|---|---|
| supermake.py:185 | `case[-4:] == ('.hpp') > -1` is a chained comparison. Under Python 3, `'.hpp' > -1` raises `TypeError` whenever the include ends in `.hpp`, and the test is false for every other include | a source with the line `#include "util.hpp"`: the run stops with an exception instead of clearing `isCCode` | an include ending in `.hpp` makes the project C++ (`isCCode = False`) | not executed | Crawl.HppTestAsWritten, Crawl.HppTestRaises | Crawl.CrawlLanguage |
| supermake.py:293 | `deps[depIndex][:-2] == filename[:-4]` cuts four characters from every source name and two from every header | `foo.c` whose crawl returns `bar.h` and `foo.h`: `"foo.h"[:-2]` is `foo` but `"foo.c"[:-4]` is `f`, so the list stays `[bar.h, foo.h]`; the test also fires falsely, since `"f.h"[:-2]` is `f`, so `[a.h, f.h]` becomes `[f.h, a.h]`; `foo.cc` with `foo.h` and `foo.cpp` with `foo.hpp` are missed too | the source's own header, its stem with `.h` or `.hpp`, comes right after the source, as the comment on that line shows with `monster.cpp monster.h` | not executed | Sources.StemTestAsWritten, Sources.HeaderTestMisses, Sources.FooCMatches, Sources.HeaderFirstAsWrittenDiffers | Sources.IsMatchingHeader, Sources.OwnHeaderFirst, Sources.HeaderTestAgreesForCpp |
