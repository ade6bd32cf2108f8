/** The include crawler `getFileDeps` as a function of the directory snapshot: what it returns, which
    library flags it appends to `depend`, and whether it clears `isCCode`. */
module Crawl {
  import opened Wrappers
  import opened Text
  import opened Ordering
  import opened Paths
  import opened Libraries
  import opened Includes
  import opened Errors
  import opened FileSystems

  /** How a file's text yields its includes of each form; the generator uses `FindIncludes`. The crawl
      and its properties are stated for any scanner. */
  type Scanner = (Form, string) -> seq<string>

  datatype CrawlResult = CrawlResult(
    deps: seq<string>,    // the returned list of file dependencies
    flags: seq<string>,   // what was appended to `depend`, in order
    sawHpp: bool)         // whether `isCCode = False` was executed

  function Budget(maxrecurse: int): nat {
    if maxrecurse < 0 then 0 else maxrecurse
  }

  /** The path a found local header is recorded under: `join(split(filename)[0], normpath(case))`. */
  function Recorded(filename: string, header: string): string {
    PathJoin(Dirname(filename), NormPath(header))
  }

  /** The intended effect of the test at supermake.py:185: the include ends in `.hpp`. */
  predicate IsHppInclude(header: string) {
    EndsWith(header, ".hpp")
  }

  /** The test at supermake.py:185 as Python 3 evaluates it: the chained comparison
      `case[-4:] == ('.hpp') > -1` means `case[-4:] == '.hpp' and '.hpp' > -1`, and ordering a string
      against an integer raises `TypeError`. The test is false for every other include, so it never
      clears `isCCode`. */
  function HppTestAsWritten(header: string): (r: Result<bool, Error>)
    ensures r.Err? <==> IsHppInclude(header)
    ensures r != Ok(true)
  {
    if header[Budget(|header| - 4)..] == ".hpp" then Err(HppComparison(header)) else Ok(false)
  }

  /** An include of `util.hpp` stops the run with an exception where the intended test holds. */
  lemma {:induction false} HppTestRaises()
    ensures IsHppInclude("util.hpp")
    ensures HppTestAsWritten("util.hpp") == Err(HppComparison("util.hpp"))
  {
    assert "util.hpp"[4..] == ".hpp";
  }

  /** `getFileDeps(filename, maxrecurse)`. */
  function CrawlFile(fs: FileSystem, lib: Table, scan: Scanner, filename: string, maxrecurse: int): Result<CrawlResult, Error>
    decreases Budget(maxrecurse), 1, 0
  {
    if maxrecurse - 1 < 0 then Ok(CrawlResult([], [], false))
    else if filename !in fs.files then Err(ReadError(filename))
    else
      var text := fs.files[filename];
      CrawlQuoted(fs, lib, scan, filename, scan(Quoted, text), maxrecurse - 1, [],
                  LibraryFlags(lib, scan(Angle, text)), false)
  }

  /** The loop over the quoted includes `cases`, with the local list `deps`, the flags appended so
      far and whether a `.hpp` include was seen; `budget` is the already decremented `maxrecurse`. */
  function CrawlQuoted(fs: FileSystem, lib: Table, scan: Scanner, filename: string, cases: seq<string>, budget: nat,
                       deps: seq<string>, flags: seq<string>, hpp: bool): Result<CrawlResult, Error>
    decreases budget + 1, 0, |cases|
  {
    if cases == [] then Ok(CrawlResult(deps, flags, hpp))
    else
      var c := cases[0];
      var hpp' := hpp || IsHppInclude(c);
      if c in lib then
        CrawlQuoted(fs, lib, scan, filename, cases[1..], budget, deps, flags + lib[c], hpp')
      else if c !in deps && c in fs.existing then
        match CrawlFile(fs, lib, scan, c, budget)
        case Err(e) => Err(e)
        case Ok(sub) =>
          CrawlQuoted(fs, lib, scan, filename, cases[1..], budget, Dedup(deps + [Recorded(filename, c)] + sub.deps),
                      flags + sub.flags, hpp' || sub.sawHpp)
      else
        CrawlQuoted(fs, lib, scan, filename, cases[1..], budget, deps, flags, hpp')
  }

  /** With no budget left nothing is read and nothing is found. */
  lemma {:induction false} CrawlWithoutBudget(fs: FileSystem, lib: Table, scan: Scanner, filename: string, maxrecurse: int)
    requires maxrecurse <= 0
    ensures CrawlFile(fs, lib, scan, filename, maxrecurse) == Ok(CrawlResult([], [], false))
  {
  }

  /** A quoted include that is a library key only contributes its flags, and never a file. */
  lemma {:induction false} LibraryIncludeStep(fs: FileSystem, lib: Table, scan: Scanner, filename: string, c: string, rest: seq<string>, budget: nat,
                           deps: seq<string>, flags: seq<string>, hpp: bool)
    requires c in lib
    ensures CrawlQuoted(fs, lib, scan, filename, [c] + rest, budget, deps, flags, hpp) ==
            CrawlQuoted(fs, lib, scan, filename, rest, budget, deps, flags + lib[c], hpp || IsHppInclude(c))
  {
    assert ([c] + rest)[1..] == rest;
  }

  /** A quoted include that is neither a key nor an existing path is skipped silently. */
  lemma {:induction false} MissingIncludeStep(fs: FileSystem, lib: Table, scan: Scanner, filename: string, c: string, rest: seq<string>, budget: nat,
                           deps: seq<string>, flags: seq<string>, hpp: bool)
    requires c !in lib && c !in fs.existing
    ensures CrawlQuoted(fs, lib, scan, filename, [c] + rest, budget, deps, flags, hpp) ==
            CrawlQuoted(fs, lib, scan, filename, rest, budget, deps, flags, hpp || IsHppInclude(c))
  {
    assert ([c] + rest)[1..] == rest;
  }

  // ---- The returned list is duplicate-free ----

  lemma {:induction false} CrawlQuotedDistinct(fs: FileSystem, lib: Table, scan: Scanner, filename: string, cases: seq<string>, budget: nat,
                                               deps: seq<string>, flags: seq<string>, hpp: bool)
    requires Distinct(deps)
    ensures CrawlQuoted(fs, lib, scan, filename, cases, budget, deps, flags, hpp).Ok? ==>
            Distinct(CrawlQuoted(fs, lib, scan, filename, cases, budget, deps, flags, hpp).value.deps)
    decreases |cases|
  {
    if cases != [] {
      var c := cases[0];
      var hpp' := hpp || IsHppInclude(c);
      if c in lib {
        CrawlQuotedDistinct(fs, lib, scan, filename, cases[1..], budget, deps, flags + lib[c], hpp');
      } else if c !in deps && c in fs.existing {
        match CrawlFile(fs, lib, scan, c, budget)
        case Err(e) =>
        case Ok(sub) =>
          DedupSpec(deps + [Recorded(filename, c)] + sub.deps);
          CrawlQuotedDistinct(fs, lib, scan, filename, cases[1..], budget, Dedup(deps + [Recorded(filename, c)] + sub.deps),
                              flags + sub.flags, hpp' || sub.sawHpp);
      } else {
        CrawlQuotedDistinct(fs, lib, scan, filename, cases[1..], budget, deps, flags, hpp');
      }
    }
  }

  /** The list `getFileDeps` returns holds no path twice. */
  lemma {:induction false} CrawlDistinct(fs: FileSystem, lib: Table, scan: Scanner, filename: string, maxrecurse: int)
    ensures CrawlFile(fs, lib, scan, filename, maxrecurse).Ok? ==> Distinct(CrawlFile(fs, lib, scan, filename, maxrecurse).value.deps)
  {
    if maxrecurse >= 1 && filename in fs.files {
      var text := fs.files[filename];
      CrawlQuotedDistinct(fs, lib, scan, filename, scan(Quoted, text), maxrecurse - 1, [],
                          LibraryFlags(lib, scan(Angle, text)), false);
    }
  }

  // ---- Which paths are recorded ----

  /** `d` comes from the quoted include `c` of `filename`: it is `c`'s recorded path or one of the
      paths `c`'s own crawl returned. */
  predicate FoundVia(fs: FileSystem, lib: Table, scan: Scanner, filename: string, c: string, budget: nat, d: string) {
    c !in lib && c in fs.existing &&
    (d == Recorded(filename, c) ||
     (CrawlFile(fs, lib, scan, c, budget).Ok? && d in CrawlFile(fs, lib, scan, c, budget).value.deps))
  }

  lemma {:induction false} CrawlQuotedSound(fs: FileSystem, lib: Table, scan: Scanner, filename: string, cases: seq<string>, budget: nat,
                                            deps: seq<string>, flags: seq<string>, hpp: bool, d: string)
    requires CrawlQuoted(fs, lib, scan, filename, cases, budget, deps, flags, hpp).Ok?
    requires d in CrawlQuoted(fs, lib, scan, filename, cases, budget, deps, flags, hpp).value.deps
    ensures d in deps || exists c :: c in cases && FoundVia(fs, lib, scan, filename, c, budget, d)
    decreases |cases|
  {
    if cases != [] {
      var c := cases[0];
      var hpp' := hpp || IsHppInclude(c);
      assert forall x :: x in cases[1..] ==> x in cases;
      if c in lib {
        CrawlQuotedSound(fs, lib, scan, filename, cases[1..], budget, deps, flags + lib[c], hpp', d);
      } else if c !in deps && c in fs.existing {
        var sub := CrawlFile(fs, lib, scan, c, budget).value;
        var deps' := Dedup(deps + [Recorded(filename, c)] + sub.deps);
        DedupSpec(deps + [Recorded(filename, c)] + sub.deps);
        CrawlQuotedSound(fs, lib, scan, filename, cases[1..], budget, deps', flags + sub.flags, hpp' || sub.sawHpp, d);
        if d in deps' && d !in deps {
          assert FoundVia(fs, lib, scan, filename, c, budget, d);
        }
      } else {
        CrawlQuotedSound(fs, lib, scan, filename, cases[1..], budget, deps, flags, hpp', d);
      }
    }
  }

  /** Every returned path is the recorded path of an existing, non-library quoted include of the file,
      or was returned by the crawl of such an include with the decremented budget. */
  lemma {:induction false} CrawlSound(fs: FileSystem, lib: Table, scan: Scanner, filename: string, maxrecurse: int, d: string)
    requires CrawlFile(fs, lib, scan, filename, maxrecurse).Ok?
    requires d in CrawlFile(fs, lib, scan, filename, maxrecurse).value.deps
    ensures maxrecurse >= 1 && filename in fs.files
    ensures exists c :: c in scan(Quoted, fs.files[filename]) && FoundVia(fs, lib, scan, filename, c, maxrecurse - 1, d)
  {
    var text := fs.files[filename];
    CrawlQuotedSound(fs, lib, scan, filename, scan(Quoted, text), maxrecurse - 1, [],
                     LibraryFlags(lib, scan(Angle, text)), false, d);
  }

  /** With `--deplevel=1` only direct includes are recorded. */
  lemma {:induction false} DirectOnlyAtDepthOne(fs: FileSystem, lib: Table, scan: Scanner, filename: string, d: string)
    requires CrawlFile(fs, lib, scan, filename, 1).Ok?
    requires d in CrawlFile(fs, lib, scan, filename, 1).value.deps
    ensures exists c :: c in scan(Quoted, fs.files[filename]) && c !in lib && c in fs.existing &&
                        d == Recorded(filename, c)
  {
    CrawlSound(fs, lib, scan, filename, 1, d);
    var c :| c in scan(Quoted, fs.files[filename]) && FoundVia(fs, lib, scan, filename, c, 0, d);
    CrawlWithoutBudget(fs, lib, scan, c, 0);
  }

  /** The local list only grows (as a set). */
  lemma {:induction false} CrawlQuotedGrows(fs: FileSystem, lib: Table, scan: Scanner, filename: string, cases: seq<string>, budget: nat,
                                            deps: seq<string>, flags: seq<string>, hpp: bool, x: string)
    requires CrawlQuoted(fs, lib, scan, filename, cases, budget, deps, flags, hpp).Ok?
    requires x in deps
    ensures x in CrawlQuoted(fs, lib, scan, filename, cases, budget, deps, flags, hpp).value.deps
    decreases |cases|
  {
    if cases != [] {
      var c := cases[0];
      var hpp' := hpp || IsHppInclude(c);
      if c in lib {
        CrawlQuotedGrows(fs, lib, scan, filename, cases[1..], budget, deps, flags + lib[c], hpp', x);
      } else if c !in deps && c in fs.existing {
        var sub := CrawlFile(fs, lib, scan, c, budget).value;
        DedupSpec(deps + [Recorded(filename, c)] + sub.deps);
        CrawlQuotedGrows(fs, lib, scan, filename, cases[1..], budget, Dedup(deps + [Recorded(filename, c)] + sub.deps),
                         flags + sub.flags, hpp' || sub.sawHpp, x);
      } else {
        CrawlQuotedGrows(fs, lib, scan, filename, cases[1..], budget, deps, flags, hpp', x);
      }
    }
  }

  lemma {:induction false} CrawlQuotedComplete(fs: FileSystem, lib: Table, scan: Scanner, filename: string, cases: seq<string>, budget: nat,
                                               deps: seq<string>, flags: seq<string>, hpp: bool, c: string)
    requires CrawlQuoted(fs, lib, scan, filename, cases, budget, deps, flags, hpp).Ok?
    requires c in cases && c !in lib && c in fs.existing
    ensures c in CrawlQuoted(fs, lib, scan, filename, cases, budget, deps, flags, hpp).value.deps ||
            Recorded(filename, c) in CrawlQuoted(fs, lib, scan, filename, cases, budget, deps, flags, hpp).value.deps
    decreases |cases|
  {
    var h := cases[0];
    var hpp' := hpp || IsHppInclude(h);
    if h in lib {
      CrawlQuotedComplete(fs, lib, scan, filename, cases[1..], budget, deps, flags + lib[h], hpp', c);
    } else if h !in deps && h in fs.existing {
      var sub := CrawlFile(fs, lib, scan, h, budget).value;
      var deps' := Dedup(deps + [Recorded(filename, h)] + sub.deps);
      DedupSpec(deps + [Recorded(filename, h)] + sub.deps);
      if h == c {
        CrawlQuotedGrows(fs, lib, scan, filename, cases[1..], budget, deps', flags + sub.flags, hpp' || sub.sawHpp,
                         Recorded(filename, c));
      } else {
        CrawlQuotedComplete(fs, lib, scan, filename, cases[1..], budget, deps', flags + sub.flags, hpp' || sub.sawHpp, c);
      }
    } else if h == c {
      CrawlQuotedGrows(fs, lib, scan, filename, cases[1..], budget, deps, flags, hpp', c);
    } else {
      CrawlQuotedComplete(fs, lib, scan, filename, cases[1..], budget, deps, flags, hpp', c);
    }
  }

  /** Every existing, non-library quoted include of a crawled file ends up in the returned list: as its
      recorded path, or, when its raw text was already in the list, as that text. */
  lemma {:induction false} CrawlComplete(fs: FileSystem, lib: Table, scan: Scanner, filename: string, maxrecurse: int, c: string)
    requires maxrecurse >= 1 && filename in fs.files
    requires CrawlFile(fs, lib, scan, filename, maxrecurse).Ok?
    requires c in scan(Quoted, fs.files[filename]) && c !in lib && c in fs.existing
    ensures c in CrawlFile(fs, lib, scan, filename, maxrecurse).value.deps ||
            Recorded(filename, c) in CrawlFile(fs, lib, scan, filename, maxrecurse).value.deps
  {
    var text := fs.files[filename];
    CrawlQuotedComplete(fs, lib, scan, filename, scan(Quoted, text), maxrecurse - 1, [],
                        LibraryFlags(lib, scan(Angle, text)), false, c);
  }

  // ---- The recursive half ----

  /** The loop over `a + b` is the loop over `a`, continued over `b` from the state it reached. */
  lemma {:induction false} CrawlQuotedSplit(fs: FileSystem, lib: Table, scan: Scanner, filename: string, a: seq<string>, b: seq<string>,
                                            budget: nat, deps: seq<string>, flags: seq<string>, hpp: bool)
    ensures CrawlQuoted(fs, lib, scan, filename, a + b, budget, deps, flags, hpp) ==
      match CrawlQuoted(fs, lib, scan, filename, a, budget, deps, flags, hpp)
      case Err(e) => Err(e)
      case Ok(r) => CrawlQuoted(fs, lib, scan, filename, b, budget, r.deps, r.flags, r.sawHpp)
    decreases |a|
  {
    if a == [] {
      assert a + b == b;
    } else {
      assert (a + b)[0] == a[0] && (a + b)[1..] == a[1..] + b;
      var c := a[0];
      var hpp' := hpp || IsHppInclude(c);
      if c in lib {
        CrawlQuotedSplit(fs, lib, scan, filename, a[1..], b, budget, deps, flags + lib[c], hpp');
      } else if c !in deps && c in fs.existing {
        match CrawlFile(fs, lib, scan, c, budget)
        case Err(_) =>
        case Ok(sub) =>
          CrawlQuotedSplit(fs, lib, scan, filename, a[1..], b, budget, Dedup(deps + [Recorded(filename, c)] + sub.deps),
                           flags + sub.flags, hpp' || sub.sawHpp);
      } else {
        CrawlQuotedSplit(fs, lib, scan, filename, a[1..], b, budget, deps, flags, hpp');
      }
    }
  }

  /** Flags appended to `depend` stay there. */
  lemma {:induction false} CrawlQuotedFlagsGrow(fs: FileSystem, lib: Table, scan: Scanner, filename: string, cases: seq<string>, budget: nat,
                                                deps: seq<string>, flags: seq<string>, hpp: bool, f: string)
    requires CrawlQuoted(fs, lib, scan, filename, cases, budget, deps, flags, hpp).Ok?
    requires f in flags
    ensures f in CrawlQuoted(fs, lib, scan, filename, cases, budget, deps, flags, hpp).value.flags
    decreases |cases|
  {
    if cases != [] {
      var c := cases[0];
      var hpp' := hpp || IsHppInclude(c);
      if c in lib {
        CrawlQuotedFlagsGrow(fs, lib, scan, filename, cases[1..], budget, deps, flags + lib[c], hpp', f);
      } else if c !in deps && c in fs.existing {
        var sub := CrawlFile(fs, lib, scan, c, budget).value;
        CrawlQuotedFlagsGrow(fs, lib, scan, filename, cases[1..], budget, Dedup(deps + [Recorded(filename, c)] + sub.deps),
                             flags + sub.flags, hpp' || sub.sawHpp, f);
      } else {
        CrawlQuotedFlagsGrow(fs, lib, scan, filename, cases[1..], budget, deps, flags, hpp', f);
      }
    }
  }

  /** The state of the quoted-include loop of `getFileDeps` when it reaches the `i`-th quoted include. */
  function LoopBefore(fs: FileSystem, lib: Table, scan: Scanner, filename: string, maxrecurse: int, i: nat): Result<CrawlResult, Error>
    requires maxrecurse >= 1 && filename in fs.files
    requires i <= |scan(Quoted, fs.files[filename])|
  {
    var text := fs.files[filename];
    CrawlQuoted(fs, lib, scan, filename, scan(Quoted, text)[..i], maxrecurse - 1, [], LibraryFlags(lib, scan(Angle, text)), false)
  }

  /** A crawl that succeeds passes every point of its loop. */
  lemma {:induction false} LoopBeforeOk(fs: FileSystem, lib: Table, scan: Scanner, filename: string, maxrecurse: int, i: nat)
    requires maxrecurse >= 1 && filename in fs.files
    requires i <= |scan(Quoted, fs.files[filename])|
    requires CrawlFile(fs, lib, scan, filename, maxrecurse).Ok?
    ensures LoopBefore(fs, lib, scan, filename, maxrecurse, i).Ok?
  {
    var text := fs.files[filename];
    var cases := scan(Quoted, text);
    assert cases == cases[..i] + cases[i..];
    CrawlQuotedSplit(fs, lib, scan, filename, cases[..i], cases[i..], maxrecurse - 1, [], LibraryFlags(lib, scan(Angle, text)), false);
  }

  /** The recursion of `getFileDeps`: an existing, non-library quoted include that is not in the local
      list when the loop reaches it is crawled with the decremented budget, and its recorded path, every
      path that crawl returns and every flag it appends reach the result. */
  lemma {:induction false} CrawlNested(fs: FileSystem, lib: Table, scan: Scanner, filename: string, maxrecurse: int, i: nat)
    requires maxrecurse >= 1 && filename in fs.files
    requires CrawlFile(fs, lib, scan, filename, maxrecurse).Ok?
    requires i < |scan(Quoted, fs.files[filename])|
    requires scan(Quoted, fs.files[filename])[i] !in lib && scan(Quoted, fs.files[filename])[i] in fs.existing
    requires LoopBefore(fs, lib, scan, filename, maxrecurse, i).Ok?
    requires scan(Quoted, fs.files[filename])[i] !in LoopBefore(fs, lib, scan, filename, maxrecurse, i).value.deps
    ensures var c := scan(Quoted, fs.files[filename])[i];
      var r := CrawlFile(fs, lib, scan, filename, maxrecurse).value;
      CrawlFile(fs, lib, scan, c, maxrecurse - 1).Ok? && Recorded(filename, c) in r.deps &&
      (forall d :: d in CrawlFile(fs, lib, scan, c, maxrecurse - 1).value.deps ==> d in r.deps) &&
      (forall f :: f in CrawlFile(fs, lib, scan, c, maxrecurse - 1).value.flags ==> f in r.flags)
  {
    var text := fs.files[filename];
    var cases := scan(Quoted, text);
    var c := cases[i];
    var budget := maxrecurse - 1;
    var flags0 := LibraryFlags(lib, scan(Angle, text));
    assert cases == cases[..i] + cases[i..];
    CrawlQuotedSplit(fs, lib, scan, filename, cases[..i], cases[i..], budget, [], flags0, false);
    var st := LoopBefore(fs, lib, scan, filename, maxrecurse, i).value;
    var b := cases[i..];
    assert b[0] == c;
    assert CrawlFile(fs, lib, scan, filename, maxrecurse) == CrawlQuoted(fs, lib, scan, filename, b, budget, st.deps, st.flags, st.sawHpp);
    var sub := CrawlFile(fs, lib, scan, c, budget).value;
    var all := st.deps + [Recorded(filename, c)] + sub.deps;
    DedupSpec(all);
    var hpp' := st.sawHpp || IsHppInclude(c) || sub.sawHpp;
    assert CrawlFile(fs, lib, scan, filename, maxrecurse) ==
           CrawlQuoted(fs, lib, scan, filename, b[1..], budget, Dedup(all), st.flags + sub.flags, hpp');
    CrawlQuotedGrows(fs, lib, scan, filename, b[1..], budget, Dedup(all), st.flags + sub.flags, hpp', Recorded(filename, c));
    forall d | d in sub.deps
      ensures d in CrawlFile(fs, lib, scan, filename, maxrecurse).value.deps
    {
      CrawlQuotedGrows(fs, lib, scan, filename, b[1..], budget, Dedup(all), st.flags + sub.flags, hpp', d);
    }
    forall f | f in sub.flags
      ensures f in CrawlFile(fs, lib, scan, filename, maxrecurse).value.flags
    {
      CrawlQuotedFlagsGrow(fs, lib, scan, filename, b[1..], budget, Dedup(all), st.flags + sub.flags, hpp', f);
    }
  }

  /** A library key included by a nested header that the loop crawls contributes all of its flags. */
  lemma {:induction false} CrawlNestedFlags(fs: FileSystem, lib: Table, scan: Scanner, filename: string, maxrecurse: int, i: nat, k: string)
    requires maxrecurse >= 2 && filename in fs.files
    requires CrawlFile(fs, lib, scan, filename, maxrecurse).Ok?
    requires i < |scan(Quoted, fs.files[filename])|
    requires scan(Quoted, fs.files[filename])[i] !in lib && scan(Quoted, fs.files[filename])[i] in fs.existing
    requires LoopBefore(fs, lib, scan, filename, maxrecurse, i).Ok?
    requires scan(Quoted, fs.files[filename])[i] !in LoopBefore(fs, lib, scan, filename, maxrecurse, i).value.deps
    requires scan(Quoted, fs.files[filename])[i] in fs.files
    requires k in lib
    requires k in scan(Angle, fs.files[scan(Quoted, fs.files[filename])[i]]) ||
             k in scan(Quoted, fs.files[scan(Quoted, fs.files[filename])[i]])
    ensures forall f :: f in lib[k] ==> f in CrawlFile(fs, lib, scan, filename, maxrecurse).value.flags
  {
    var c := scan(Quoted, fs.files[filename])[i];
    CrawlNested(fs, lib, scan, filename, maxrecurse, i);
    CrawlFlags(fs, lib, scan, c, maxrecurse - 1, k);
  }

  // ---- The first crawl of a header wins ----

  /** A plain header of a file in the current directory is recorded under its own name. */
  lemma {:induction false} RecordedPlain(filename: string, c: string)
    requires '/' !in filename
    requires c != "" && c != "." && c != ".." && '/' !in c
    ensures Recorded(filename, c) == c
  {
    assert Dirname(filename) == "";
    PlainNameIsNormal(c);
  }

  /** The situation of the two lemmas below: `a` includes `b`, `b` includes only the library key `k`,
      and `x` includes `a` and then `b`, while `y` includes them the other way round. */
  predicate TwoHeaderTree(fs: FileSystem, lib: Table, scan: Scanner, x: string, y: string, a: string, b: string, k: string) {
    x in fs.files && y in fs.files && a in fs.files && b in fs.files &&
    a in fs.existing && b in fs.existing && a !in lib && b !in lib && k in lib && a != b &&
    '/' !in x && '/' !in y && '/' !in a && '/' !in b &&
    a != "" && a != "." && a != ".." && b != "" && b != "." && b != ".." &&
    !IsHppInclude(a) && !IsHppInclude(b) &&
    scan(Quoted, fs.files[x]) == [a, b] && scan(Angle, fs.files[x]) == [] &&
    scan(Quoted, fs.files[y]) == [b, a] && scan(Angle, fs.files[y]) == [] &&
    scan(Quoted, fs.files[a]) == [b] && scan(Angle, fs.files[a]) == [] &&
    scan(Quoted, fs.files[b]) == [] && scan(Angle, fs.files[b]) == [k]
  }

  /** A file with budget left is its quoted-include loop, started with its angle includes' flags. */
  lemma {:induction false} FileStep(fs: FileSystem, lib: Table, scan: Scanner, filename: string, maxrecurse: int)
    requires maxrecurse >= 1 && filename in fs.files
    ensures CrawlFile(fs, lib, scan, filename, maxrecurse) ==
      CrawlQuoted(fs, lib, scan, filename, scan(Quoted, fs.files[filename]), maxrecurse - 1, [],
                  LibraryFlags(lib, scan(Angle, fs.files[filename])), false)
  {
  }

  /** An existing, non-library include not yet listed is crawled, and its results join the loop's state. */
  lemma {:induction false} NewIncludeStep(fs: FileSystem, lib: Table, scan: Scanner, filename: string, cases: seq<string>,
                                          budget: nat, deps: seq<string>, flags: seq<string>, hpp: bool, sub: CrawlResult)
    requires cases != [] && cases[0] !in lib && cases[0] !in deps && cases[0] in fs.existing
    requires CrawlFile(fs, lib, scan, cases[0], budget) == Ok(sub)
    ensures CrawlQuoted(fs, lib, scan, filename, cases, budget, deps, flags, hpp) ==
            CrawlQuoted(fs, lib, scan, filename, cases[1..], budget, Dedup(deps + [Recorded(filename, cases[0])] + sub.deps),
                        flags + sub.flags, hpp || IsHppInclude(cases[0]) || sub.sawHpp)
  {
  }

  /** A non-library include whose raw text is already listed is skipped (`case not in deps`). */
  lemma {:induction false} ListedIncludeStep(fs: FileSystem, lib: Table, scan: Scanner, filename: string, cases: seq<string>,
                                             budget: nat, deps: seq<string>, flags: seq<string>, hpp: bool)
    requires cases != [] && cases[0] !in lib && cases[0] in deps
    ensures CrawlQuoted(fs, lib, scan, filename, cases, budget, deps, flags, hpp) ==
            CrawlQuoted(fs, lib, scan, filename, cases[1..], budget, deps, flags, hpp || IsHppInclude(cases[0]))
  {
  }

  /** `Dedup` on the short lists of the example below. */
  lemma {:induction false} DedupShort(a: string, b: string)
    requires a != b
    ensures Dedup([b]) == [b]
    ensures Dedup([a, b]) == [a, b]
    ensures Dedup([b, a, b]) == [b, a]
  {
    assert [b][..0] == [] && [a][..0] == [];
    assert [a, b][..1] == [a];
    assert [b, a, b][..2] == [b, a] && [b, a][..1] == [b];
  }

  /** A header with one level left whose only quoted include `b` exists: its crawl lists `b` only. */
  lemma {:induction false} OneIncludeLeaf(fs: FileSystem, lib: Table, scan: Scanner, a: string, b: string)
    requires a in fs.files && b in fs.existing && b !in lib && !IsHppInclude(b)
    requires scan(Quoted, fs.files[a]) == [b] && scan(Angle, fs.files[a]) == []
    requires Recorded(a, b) == b
    ensures CrawlFile(fs, lib, scan, a, 1) == Ok(CrawlResult([b], [], false))
  {
    var nothing: seq<string> := [];
    var none := CrawlResult(nothing, nothing, false);
    var qa: seq<string> := [b];
    FileStep(fs, lib, scan, a, 1);
    CrawlWithoutBudget(fs, lib, scan, b, 0);
    NewIncludeStep(fs, lib, scan, a, qa, 0, nothing, nothing, false, none);
    assert nothing + [Recorded(a, b)] + none.deps == [b];
    assert Dedup([b]) == [b] by {
      assert [b][..0] == [];
    }
    assert nothing + none.flags == nothing && qa[1..] == nothing;
  }

  /** A header with one level left and no quoted includes: its crawl gives its angle includes' flags. */
  lemma {:induction false} AngleOnlyLeaf(fs: FileSystem, lib: Table, scan: Scanner, b: string, k: string)
    requires b in fs.files && k in lib
    requires scan(Quoted, fs.files[b]) == [] && scan(Angle, fs.files[b]) == [k]
    ensures CrawlFile(fs, lib, scan, b, 1) == Ok(CrawlResult([], lib[k], false))
  {
    assert LibraryFlags(lib, [k]) == lib[k] by {
      assert [k][..0] == [];
    }
    FileStep(fs, lib, scan, b, 1);
  }

  /** `x` with its includes `a`, `b` in that order, where `a`'s crawl already lists `b`. */
  lemma {:induction false} ReachedThroughFirst(fs: FileSystem, lib: Table, scan: Scanner, x: string, a: string, b: string)
    requires x in fs.files && a in fs.existing && a !in lib && b !in lib && a != b
    requires !IsHppInclude(a) && !IsHppInclude(b)
    requires scan(Quoted, fs.files[x]) == [a, b] && scan(Angle, fs.files[x]) == []
    requires Recorded(x, a) == a
    requires CrawlFile(fs, lib, scan, a, 1) == Ok(CrawlResult([b], [], false))
    ensures CrawlFile(fs, lib, scan, x, 2) == Ok(CrawlResult([a, b], [], false))
  {
    var nothing: seq<string> := [];
    var subA := CrawlResult([b], nothing, false);
    var qx: seq<string> := [a, b];
    var qb: seq<string> := [b];
    FileStep(fs, lib, scan, x, 2);
    DedupShort(a, b);
    assert qx[1..] == qb && qb[1..] == nothing;
    assert nothing + [Recorded(x, a)] + subA.deps == [a, b];
    assert nothing + subA.flags == nothing;
    NewIncludeStep(fs, lib, scan, x, qx, 1, nothing, nothing, false, subA);
    ListedIncludeStep(fs, lib, scan, x, qb, 1, [a, b], nothing, false);
  }

  /** `y` with its includes `b`, `a` in that order: `b` is crawled on its own first. */
  lemma {:induction false} ReachedDirectly(fs: FileSystem, lib: Table, scan: Scanner, y: string, a: string, b: string, k: string)
    requires y in fs.files && a in fs.existing && b in fs.existing && a !in lib && b !in lib && k in lib && a != b
    requires !IsHppInclude(a) && !IsHppInclude(b)
    requires scan(Quoted, fs.files[y]) == [b, a] && scan(Angle, fs.files[y]) == []
    requires Recorded(y, a) == a && Recorded(y, b) == b
    requires CrawlFile(fs, lib, scan, a, 1) == Ok(CrawlResult([b], [], false))
    requires CrawlFile(fs, lib, scan, b, 1) == Ok(CrawlResult([], lib[k], false))
    ensures CrawlFile(fs, lib, scan, y, 2) == Ok(CrawlResult([b, a], lib[k], false))
  {
    var nothing: seq<string> := [];
    var subB := CrawlResult(nothing, lib[k], false);
    var qy: seq<string> := [b, a];
    var qa: seq<string> := [a];
    FileStep(fs, lib, scan, y, 2);
    assert qy[1..] == qa;
    assert nothing + [Recorded(y, b)] + subB.deps == [b];
    assert Dedup([b]) == [b] by {
      assert [b][..0] == [];
    }
    assert nothing + subB.flags == lib[k];
    NewIncludeStep(fs, lib, scan, y, qy, 1, nothing, nothing, false, subB);
    ReachedSecond(fs, lib, scan, y, a, b, lib[k], 1);
  }

  /** The second step for `y`: `a` is not listed yet, so it is crawled and adds itself after `b`. */
  lemma {:induction false} ReachedSecond(fs: FileSystem, lib: Table, scan: Scanner, y: string, a: string, b: string, flags: seq<string>, n: nat)
    requires a in fs.existing && a !in lib && a != b && !IsHppInclude(a)
    requires Recorded(y, a) == a
    requires CrawlFile(fs, lib, scan, a, n) == Ok(CrawlResult([b], [], false))
    ensures CrawlQuoted(fs, lib, scan, y, [a], n, [b], flags, false) == Ok(CrawlResult([b, a], flags, false))
  {
    var nothing: seq<string> := [];
    var subA := CrawlResult([b], [], false);
    AppendNothing(flags);
    var qa: seq<string> := [a];
    var bs: seq<string> := [b];
    assert bs + [Recorded(y, a)] + subA.deps == [b, a, b];
    DedupShort(a, b);
    assert qa[1..] == nothing;
    NewIncludeStep(fs, lib, scan, y, qa, n, bs, flags, false, subA);
  }

  lemma {:induction false} AppendNothing(s: seq<string>)
    ensures s + [] == s
  {
  }

  /** The first crawl of a header wins: with `--deplevel=2`, `x` reaches `b` first through `a`, whose
      crawl has no level left to read `b`, and then skips its own include of `b` because `b` is already
      listed (`case not in deps`, supermake.py:190). So `x` misses the flags of `k`, which `y`, including
      `b` first, gets. */
  lemma {:induction false} FirstReachWins(fs: FileSystem, lib: Table, scan: Scanner, x: string, y: string, a: string, b: string, k: string)
    requires TwoHeaderTree(fs, lib, scan, x, y, a, b, k)
    ensures CrawlFile(fs, lib, scan, x, 2) == Ok(CrawlResult([a, b], [], false))
    ensures CrawlFile(fs, lib, scan, y, 2) == Ok(CrawlResult([b, a], lib[k], false))
  {
    RecordedPlain(a, b);
    RecordedPlain(x, a);
    RecordedPlain(y, a);
    RecordedPlain(y, b);
    OneIncludeLeaf(fs, lib, scan, a, b);
    AngleOnlyLeaf(fs, lib, scan, b, k);
    ReachedThroughFirst(fs, lib, scan, x, a, b);
    ReachedDirectly(fs, lib, scan, y, a, b, k);
  }

  // ---- Library flags ----

  predicate AllLibraryFlags(lib: Table, flags: seq<string>) {
    forall f :: f in flags ==> exists k :: k in lib && f in lib[k]
  }

  lemma {:induction false} CrawlFileFlagsSound(fs: FileSystem, lib: Table, scan: Scanner, filename: string, maxrecurse: int)
    ensures CrawlFile(fs, lib, scan, filename, maxrecurse).Ok? ==> AllLibraryFlags(lib, CrawlFile(fs, lib, scan, filename, maxrecurse).value.flags)
    decreases Budget(maxrecurse), 1, 0
  {
    if maxrecurse >= 1 && filename in fs.files {
      var text := fs.files[filename];
      LibraryFlagsSpec(lib, scan(Angle, text));
      CrawlQuotedFlagsSound(fs, lib, scan, filename, scan(Quoted, text), maxrecurse - 1, [],
                            LibraryFlags(lib, scan(Angle, text)), false);
    }
  }

  lemma {:induction false} CrawlQuotedFlagsSound(fs: FileSystem, lib: Table, scan: Scanner, filename: string, cases: seq<string>, budget: nat,
                                                 deps: seq<string>, flags: seq<string>, hpp: bool)
    requires AllLibraryFlags(lib, flags)
    ensures CrawlQuoted(fs, lib, scan, filename, cases, budget, deps, flags, hpp).Ok? ==>
            AllLibraryFlags(lib, CrawlQuoted(fs, lib, scan, filename, cases, budget, deps, flags, hpp).value.flags)
    decreases budget + 1, 0, |cases|
  {
    if cases != [] {
      var c := cases[0];
      var hpp' := hpp || IsHppInclude(c);
      if c in lib {
        CrawlQuotedFlagsSound(fs, lib, scan, filename, cases[1..], budget, deps, flags + lib[c], hpp');
      } else if c !in deps && c in fs.existing {
        CrawlFileFlagsSound(fs, lib, scan, c, budget);
        match CrawlFile(fs, lib, scan, c, budget)
        case Err(e) =>
        case Ok(sub) =>
          CrawlQuotedFlagsSound(fs, lib, scan, filename, cases[1..], budget, Dedup(deps + [Recorded(filename, c)] + sub.deps),
                                flags + sub.flags, hpp' || sub.sawHpp);
      } else {
        CrawlQuotedFlagsSound(fs, lib, scan, filename, cases[1..], budget, deps, flags, hpp');
      }
    }
  }

  lemma {:induction false} CrawlQuotedKeepsFlags(fs: FileSystem, lib: Table, scan: Scanner, filename: string, cases: seq<string>, budget: nat,
                                                 deps: seq<string>, flags: seq<string>, hpp: bool, k: string)
    requires CrawlQuoted(fs, lib, scan, filename, cases, budget, deps, flags, hpp).Ok?
    requires (k in cases && k in lib) || (forall f :: f in FlagsOf(lib, k) ==> f in flags)
    ensures forall f :: f in FlagsOf(lib, k) ==> f in CrawlQuoted(fs, lib, scan, filename, cases, budget, deps, flags, hpp).value.flags
    decreases |cases|
  {
    var r := CrawlQuoted(fs, lib, scan, filename, cases, budget, deps, flags, hpp).value;
    if cases != [] {
      var c := cases[0];
      var hpp' := hpp || IsHppInclude(c);
      var k' := if c == k then c else k;
      if c in lib {
        CrawlQuotedKeepsFlags(fs, lib, scan, filename, cases[1..], budget, deps, flags + lib[c], hpp', k);
      } else if c !in deps && c in fs.existing {
        var sub := CrawlFile(fs, lib, scan, c, budget).value;
        CrawlQuotedKeepsFlags(fs, lib, scan, filename, cases[1..], budget, Dedup(deps + [Recorded(filename, c)] + sub.deps),
                              flags + sub.flags, hpp' || sub.sawHpp, k);
      } else {
        CrawlQuotedKeepsFlags(fs, lib, scan, filename, cases[1..], budget, deps, flags, hpp', k);
      }
    }
  }

  /** An include of the file, angle or quoted, that is exactly a library key contributes all of its
      flags; every contributed flag belongs to some key. */
  lemma {:induction false} CrawlFlags(fs: FileSystem, lib: Table, scan: Scanner, filename: string, maxrecurse: int, k: string)
    requires maxrecurse >= 1 && filename in fs.files
    requires CrawlFile(fs, lib, scan, filename, maxrecurse).Ok?
    requires k in lib
    requires k in scan(Angle, fs.files[filename]) || k in scan(Quoted, fs.files[filename])
    ensures forall f :: f in lib[k] ==> f in CrawlFile(fs, lib, scan, filename, maxrecurse).value.flags
    ensures AllLibraryFlags(lib, CrawlFile(fs, lib, scan, filename, maxrecurse).value.flags)
  {
    var text := fs.files[filename];
    LibraryFlagsSpec(lib, scan(Angle, text));
    CrawlQuotedKeepsFlags(fs, lib, scan, filename, scan(Quoted, text), maxrecurse - 1, [],
                          LibraryFlags(lib, scan(Angle, text)), false, k);
    CrawlFileFlagsSound(fs, lib, scan, filename, maxrecurse);
  }

  // ---- The language decision ----

  /** A `.hpp` include met in the loop is never forgotten. */
  lemma {:induction false} CrawlQuotedHppSeen(fs: FileSystem, lib: Table, scan: Scanner, filename: string, cases: seq<string>, budget: nat,
                                              deps: seq<string>, flags: seq<string>, hpp: bool)
    requires CrawlQuoted(fs, lib, scan, filename, cases, budget, deps, flags, hpp).Ok?
    ensures hpp || (exists c :: c in cases && IsHppInclude(c)) ==>
      CrawlQuoted(fs, lib, scan, filename, cases, budget, deps, flags, hpp).value.sawHpp
    decreases |cases|
  {
    if cases != [] {
      var c := cases[0];
      var hpp' := hpp || IsHppInclude(c);
      assert forall x :: x in cases ==> x == c || x in cases[1..];
      if c in lib {
        CrawlQuotedHppSeen(fs, lib, scan, filename, cases[1..], budget, deps, flags + lib[c], hpp');
      } else if c !in deps && c in fs.existing {
        var sub := CrawlFile(fs, lib, scan, c, budget).value;
        CrawlQuotedHppSeen(fs, lib, scan, filename, cases[1..], budget, Dedup(deps + [Recorded(filename, c)] + sub.deps),
                           flags + sub.flags, hpp' || sub.sawHpp);
      } else {
        CrawlQuotedHppSeen(fs, lib, scan, filename, cases[1..], budget, deps, flags, hpp');
      }
    }
  }

  /** The flag is set only by a `.hpp` include of the loop or by the crawl of one of its includes. */
  lemma {:induction false} CrawlQuotedHppBlame(fs: FileSystem, lib: Table, scan: Scanner, filename: string, cases: seq<string>, budget: nat,
                                               deps: seq<string>, flags: seq<string>, hpp: bool)
    requires CrawlQuoted(fs, lib, scan, filename, cases, budget, deps, flags, hpp).Ok?
    ensures CrawlQuoted(fs, lib, scan, filename, cases, budget, deps, flags, hpp).value.sawHpp ==>
      hpp || (exists c :: c in cases && IsHppInclude(c)) ||
      (exists c :: c in cases && HppBelow(fs, lib, scan, c, budget))
    decreases |cases|
  {
    if cases != [] {
      var c := cases[0];
      var hpp' := hpp || IsHppInclude(c);
      assert forall x :: x in cases[1..] ==> x in cases;
      if c in lib {
        CrawlQuotedHppBlame(fs, lib, scan, filename, cases[1..], budget, deps, flags + lib[c], hpp');
      } else if c !in deps && c in fs.existing {
        var sub := CrawlFile(fs, lib, scan, c, budget).value;
        CrawlQuotedHppBlame(fs, lib, scan, filename, cases[1..], budget, Dedup(deps + [Recorded(filename, c)] + sub.deps),
                            flags + sub.flags, hpp' || sub.sawHpp);
      } else {
        CrawlQuotedHppBlame(fs, lib, scan, filename, cases[1..], budget, deps, flags, hpp');
      }
    }
  }

  /** The crawl of the existing, non-library include `c` saw a `.hpp` include. */
  predicate HppBelow(fs: FileSystem, lib: Table, scan: Scanner, c: string, budget: nat) {
    c !in lib && c in fs.existing && CrawlFile(fs, lib, scan, c, budget).Ok? && CrawlFile(fs, lib, scan, c, budget).value.sawHpp
  }

  /** `isCCode` is cleared by a quoted include ending in `.hpp` in the crawled file, and otherwise only
      by the crawl of one of its existing, non-library quoted includes. */
  lemma {:induction false} CrawlLanguage(fs: FileSystem, lib: Table, scan: Scanner, filename: string, maxrecurse: int)
    requires maxrecurse >= 1 && filename in fs.files
    requires CrawlFile(fs, lib, scan, filename, maxrecurse).Ok?
    ensures (exists c :: c in scan(Quoted, fs.files[filename]) && IsHppInclude(c)) ==>
      CrawlFile(fs, lib, scan, filename, maxrecurse).value.sawHpp
    ensures CrawlFile(fs, lib, scan, filename, maxrecurse).value.sawHpp ==>
      (exists c :: c in scan(Quoted, fs.files[filename]) && IsHppInclude(c)) ||
      (exists c :: c in scan(Quoted, fs.files[filename]) && HppBelow(fs, lib, scan, c, maxrecurse - 1))
  {
    var text := fs.files[filename];
    CrawlQuotedHppSeen(fs, lib, scan, filename, scan(Quoted, text), maxrecurse - 1, [],
                       LibraryFlags(lib, scan(Angle, text)), false);
    CrawlQuotedHppBlame(fs, lib, scan, filename, scan(Quoted, text), maxrecurse - 1, [],
                        LibraryFlags(lib, scan(Angle, text)), false);
  }

  /** The crawl reads the files and the existence test only: the listing and the directories do not
      affect it. */
  lemma {:induction false} CrawlListingFree(fs: FileSystem, fs2: FileSystem, lib: Table, scan: Scanner, filename: string,
                                            maxrecurse: int)
    requires fs2.files == fs.files && fs2.existing == fs.existing
    ensures CrawlFile(fs2, lib, scan, filename, maxrecurse) == CrawlFile(fs, lib, scan, filename, maxrecurse)
    decreases Budget(maxrecurse), 1, 0
  {
    if maxrecurse - 1 >= 0 && filename in fs.files {
      var text := fs.files[filename];
      CrawlQuotedListingFree(fs, fs2, lib, scan, filename, scan(Quoted, text), maxrecurse - 1, [],
                             LibraryFlags(lib, scan(Angle, text)), false);
    }
  }

  lemma {:induction false} CrawlQuotedListingFree(fs: FileSystem, fs2: FileSystem, lib: Table, scan: Scanner, filename: string,
                                                  cases: seq<string>, budget: nat, deps: seq<string>, flags: seq<string>, hpp: bool)
    requires fs2.files == fs.files && fs2.existing == fs.existing
    ensures CrawlQuoted(fs2, lib, scan, filename, cases, budget, deps, flags, hpp) ==
            CrawlQuoted(fs, lib, scan, filename, cases, budget, deps, flags, hpp)
    decreases budget + 1, 0, |cases|
  {
    if cases != [] {
      var c := cases[0];
      var hpp' := hpp || IsHppInclude(c);
      if c in lib {
        CrawlQuotedListingFree(fs, fs2, lib, scan, filename, cases[1..], budget, deps, flags + lib[c], hpp');
      } else if c !in deps && c in fs.existing {
        CrawlListingFree(fs, fs2, lib, scan, c, budget);
        match CrawlFile(fs, lib, scan, c, budget)
        case Err(_) =>
        case Ok(sub) =>
          CrawlQuotedListingFree(fs, fs2, lib, scan, filename, cases[1..], budget,
                                 Dedup(deps + [Recorded(filename, c)] + sub.deps), flags + sub.flags, hpp' || sub.sawHpp);
      } else {
        CrawlQuotedListingFree(fs, fs2, lib, scan, filename, cases[1..], budget, deps, flags, hpp');
      }
    }
  }
}
