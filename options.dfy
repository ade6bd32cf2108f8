/** The command line: the validator `filterCommandlineOptionDescrepency`, the option searches of
    `main` (the last matching argument wins), `--deplevel`'s number, the library name and the help
    tokens. The regular expressions involved are modelled by what they can match. */
module Options {
  import opened Wrappers
  import opened Text
  import opened Paths
  import opened Errors

  // ---- Character classes and `re.search` of `key(C+)` ----

  /** The classes `.` (no line break), `\d` and `\S` of the option patterns. */
  datatype CharClass = AnyButNewline | Digit | NonSpace

  predicate IsDigit(c: char) {
    '0' <= c <= '9'
  }

  /** Python 3's `\s` on text: the characters `str.isspace` accepts. */
  predicate IsSpace(c: char) {
    c == ' ' || ('\t' <= c <= '\r') || ('\U{1c}' <= c <= '\U{1f}') || c == '\U{85}' || c == '\U{a0}' ||
    c == '\U{1680}' || ('\U{2000}' <= c <= '\U{200a}') || c == '\U{2028}' || c == '\U{2029}' ||
    c == '\U{202f}' || c == '\U{205f}' || c == '\U{3000}'
  }

  predicate InClass(cls: CharClass, c: char) {
    match cls
    case AnyButNewline => c != '\n'
    case Digit => IsDigit(c)
    case NonSpace => !IsSpace(c)
  }

  /** A greedy `C+` (or `C*`) run: the longest prefix of `s` inside the class. */
  function Run(cls: CharClass, s: string): (r: string)
    ensures StartsWith(s, r)
    ensures forall k :: 0 <= k < |r| ==> InClass(cls, r[k])
    ensures |r| < |s| ==> !InClass(cls, s[|r|])
  {
    if s == "" || !InClass(cls, s[0]) then ""
    else
      var rest := Run(cls, s[1..]);
      assert s == [s[0]] + s[1..];
      [s[0]] + rest
  }

  /** A text made of class characters only is one whole run. */
  lemma {:induction false} RunWhole(cls: CharClass, s: string)
    requires forall k :: 0 <= k < |s| ==> InClass(cls, s[k])
    ensures Run(cls, s) == s
    decreases |s|
  {
    if s != "" {
      RunWhole(cls, s[1..]);
    }
  }

  /** `key` followed by at least one character of the class starts at index `p` of `arg`. */
  predicate MatchAt(arg: string, key: string, cls: CharClass, p: nat) {
    p + |key| < |arg| && arg[p..p + |key|] == key && InClass(cls, arg[p + |key|])
  }

  function SearchFrom(arg: string, key: string, cls: CharClass, p: nat): Option<string>
    decreases |arg| - p
  {
    if p + |key| >= |arg| then None
    else if MatchAt(arg, key, cls, p) then Some(Run(cls, arg[p + |key|..]))
    else SearchFrom(arg, key, cls, p + 1)
  }

  /** `re.search(key + '(C+)', arg)`: the group of the leftmost match, if any. */
  function Search(arg: string, key: string, cls: CharClass): Option<string> {
    SearchFrom(arg, key, cls, 0)
  }

  lemma {:induction false} SearchFromSpec(arg: string, key: string, cls: CharClass, p: nat)
    ensures SearchFrom(arg, key, cls, p).None? <==> forall q :: p <= q ==> !MatchAt(arg, key, cls, q)
    ensures SearchFrom(arg, key, cls, p).Some? ==>
      exists q :: p <= q && MatchAt(arg, key, cls, q) &&
        (forall q' :: p <= q' < q ==> !MatchAt(arg, key, cls, q')) &&
        SearchFrom(arg, key, cls, p).value == Run(cls, arg[q + |key|..])
    decreases |arg| - p
  {
    if p + |key| < |arg| {
      var r := SearchFrom(arg, key, cls, p);
      if MatchAt(arg, key, cls, p) {
        assert r.value == Run(cls, arg[p + |key|..]);
      } else {
        SearchFromSpec(arg, key, cls, p + 1);
        if r.Some? {
          var q :| p + 1 <= q && MatchAt(arg, key, cls, q) &&
            (forall q' :: p + 1 <= q' < q ==> !MatchAt(arg, key, cls, q')) &&
            r.value == Run(cls, arg[q + |key|..]);
          assert forall q' :: p <= q' < q ==> !MatchAt(arg, key, cls, q');
        }
      }
    }
  }

  /** The search finds the leftmost occurrence of the key that is followed by a class character, and
      its group is the whole run of class characters there (so it is never empty); it finds nothing
      exactly when there is no such occurrence. */
  lemma {:induction false} SearchSpec(arg: string, key: string, cls: CharClass)
    ensures Search(arg, key, cls).None? <==> forall q :: 0 <= q ==> !MatchAt(arg, key, cls, q)
    ensures Search(arg, key, cls).Some? ==>
      exists q :: 0 <= q && MatchAt(arg, key, cls, q) &&
        (forall q' :: 0 <= q' < q ==> !MatchAt(arg, key, cls, q')) &&
        Search(arg, key, cls).value == Run(cls, arg[q + |key|..]) &&
        |Search(arg, key, cls).value| >= 1 && StartsWith(arg[q..], key + Search(arg, key, cls).value)
  {
    SearchFromSpec(arg, key, cls, 0);
    if Search(arg, key, cls).Some? {
      var v := Search(arg, key, cls).value;
      var q :| 0 <= q && MatchAt(arg, key, cls, q) &&
        (forall q' :: 0 <= q' < q ==> !MatchAt(arg, key, cls, q')) && v == Run(cls, arg[q + |key|..]);
      MatchedRun(arg, key, cls, q);
    }
  }

  /** At a match, the key and the whole run follow each other in the argument. */
  lemma {:induction false} MatchedRun(arg: string, key: string, cls: CharClass, q: nat)
    requires MatchAt(arg, key, cls, q)
    ensures |Run(cls, arg[q + |key|..])| >= 1
    ensures StartsWith(arg[q..], key + Run(cls, arg[q + |key|..]))
  {
    var s := arg[q + |key|..];
    var v := Run(cls, s);
    assert s[0] == arg[q + |key|];
    assert |v| >= 1;
    assert arg[q..] == arg[q..q + |key|] + s;
    assert v == s[..|v|];
  }

  // ---- Last occurrence wins ----

  /** The group of the last argument that the search matches: the value a loop
      `for argument in argv: m = re.search(...); if m: value = m.group(1)` ends with. */
  function LastCapture(argv: seq<string>, key: string, cls: CharClass): Option<string>
    decreases |argv|
  {
    if argv == [] then None
    else match Search(argv[|argv| - 1], key, cls)
      case Some(v) => Some(v)
      case None => LastCapture(argv[..|argv| - 1], key, cls)
  }

  /** The captured value comes from a matching argument after which no argument matches; there is no
      value exactly when no argument matches. */
  lemma {:induction false} LastCaptureSpec(argv: seq<string>, key: string, cls: CharClass)
    ensures LastCapture(argv, key, cls).None? <==>
      forall i :: 0 <= i < |argv| ==> Search(argv[i], key, cls).None?
    ensures LastCapture(argv, key, cls).Some? ==>
      exists i :: 0 <= i < |argv| && Search(argv[i], key, cls) == LastCapture(argv, key, cls) &&
        forall j :: i < j < |argv| ==> Search(argv[j], key, cls).None?
    decreases |argv|
  {
    if argv != [] {
      var init := argv[..|argv| - 1];
      LastCaptureSpec(init, key, cls);
      assert forall i :: 0 <= i < |init| ==> init[i] == argv[i];
    }
  }

  /** The extraction loop of `main` for one option. */
  method LastMatch(argv: seq<string>, key: string, cls: CharClass) returns (r: Option<string>)
    ensures r == LastCapture(argv, key, cls)
  {
    r := None;
    for i := 0 to |argv|
      invariant r == LastCapture(argv[..i], key, cls)
    {
      var m := Search(argv[i], key, cls);
      assert argv[..i + 1][..i] == argv[..i];
      if m.Some? {
        r := m;
      }
    }
    assert argv[..|argv|] == argv;
  }

  // ---- Validation ----

  /** What follows the literal part of a valid-argument pattern: nothing, or a `+` run of a class. */
  datatype Tail = Exactly | OneOrMore(cls: CharClass)

  datatype Pattern = Pattern(literal: string, tail: Tail)

  /** `validArgumentRegexPatterns`, in order. */
  const ValidPatterns: seq<Pattern> := [
    Pattern("--binary=", OneOrMore(AnyButNewline)),
    Pattern("--lib=", OneOrMore(AnyButNewline)),
    Pattern("--deplevel=", OneOrMore(Digit)),
    Pattern("--custom=", OneOrMore(AnyButNewline)),
    Pattern("--autoclean", Exactly),
    Pattern("--usrlocal", Exactly),
    Pattern("--warn", Exactly),
    Pattern("--debug", Exactly),
    Pattern("--descrete", Exactly),
    Pattern("--quiet", Exactly),
    Pattern("--print", Exactly),
    Pattern("--make", Exactly),
    Pattern("--run", Exactly)
  ]

  /** The line is the pattern from its first to its last character. */
  predicate WhollyMatches(p: Pattern, line: string) {
    StartsWith(line, p.literal) &&
    match p.tail
    case Exactly => |line| == |p.literal|
    case OneOrMore(cls) => |line| > |p.literal| && forall k :: |p.literal| <= k < |line| ==> InClass(cls, line[k])
  }

  /** `re.search('^' + P + '$', argument, re.MULTILINE)`: `^` and `$` also match at line breaks and no
      part of `P` crosses one, so some line of the argument is wholly `P`. */
  predicate MatchesSomeLine(p: Pattern, argument: string) {
    exists line :: line in Split(argument, '\n') && WhollyMatches(p, line)
  }

  predicate IsValidArgument(argument: string) {
    exists i :: 0 <= i < |ValidPatterns| && MatchesSomeLine(ValidPatterns[i], argument)
  }

  /** `argv[1:]`. */
  function Arguments(argv: seq<string>): seq<string> {
    if argv == [] then [] else argv[1..]
  }

  /** The index of the first argument that matches no pattern. */
  function FirstInvalid(args: seq<string>): (r: Option<nat>)
    ensures r.Some? ==> r.value < |args| && !IsValidArgument(args[r.value]) &&
                        forall k :: 0 <= k < r.value ==> IsValidArgument(args[k])
    ensures r.None? ==> forall k :: 0 <= k < |args| ==> IsValidArgument(args[k])
  {
    if args == [] then None
    else if !IsValidArgument(args[0]) then Some(0)
    else match FirstInvalid(args[1..])
      case Some(i) => Some(i + 1)
      case None => None
  }

  /** `re.search('--lib=.+', argument)` for some argument, `argv[0]` included. */
  predicate LibSpecified(argv: seq<string>) {
    exists i :: 0 <= i < |argv| && Search(argv[i], "--lib=", AnyButNewline).Some?
  }

  predicate BinarySpecified(argv: seq<string>) {
    exists i :: 0 <= i < |argv| && Search(argv[i], "--binary=", AnyButNewline).Some?
  }

  /** The first `exit(1)` of the validator, in the order of its checks. */
  function ValidationError(argv: seq<string>): Option<Error> {
    var args := Arguments(argv);
    match FirstInvalid(args)
    case Some(i) => Some(InvalidArgument(args[i]))
    case None =>
      if "--print" in argv && "--make" in argv then Some(PrintWithMake)
      else if LibSpecified(argv) && "--run" in argv then Some(RunWithLib)
      else if "--run" in argv && "--make" !in argv then Some(RunWithoutMake)
      else if BinarySpecified(argv) && LibSpecified(argv) then Some(BinaryWithLib)
      else None
  }

  /** The validator accepts exactly the command lines whose arguments after `argv[0]` all match a
      pattern and that combine none of the forbidden options; an invalid argument is reported first,
      and it is the first one. */
  lemma {:induction false} ValidationSpec(argv: seq<string>)
    ensures ValidationError(argv).None? <==>
      (forall a :: a in Arguments(argv) ==> IsValidArgument(a)) &&
      !("--print" in argv && "--make" in argv) &&
      !(LibSpecified(argv) && "--run" in argv) &&
      !("--run" in argv && "--make" !in argv) &&
      !(BinarySpecified(argv) && LibSpecified(argv))
    ensures (exists a :: a in Arguments(argv) && !IsValidArgument(a)) ==>
      exists i :: 0 <= i < |Arguments(argv)| && ValidationError(argv) == Some(InvalidArgument(Arguments(argv)[i])) &&
        !IsValidArgument(Arguments(argv)[i]) &&
        forall k :: 0 <= k < i ==> IsValidArgument(Arguments(argv)[k])
  {
    var args := Arguments(argv);
    if FirstInvalid(args).None? {
      assert forall a :: a in args ==> IsValidArgument(a);
    }
  }

  /** The inner loop over the patterns for one argument. */
  method ArgumentIsValid(argument: string) returns (valid: bool)
    ensures valid == IsValidArgument(argument)
  {
    valid := false;
    var k := 0;
    while k < |ValidPatterns|
      invariant 0 <= k <= |ValidPatterns|
      invariant forall i :: 0 <= i < k ==> !MatchesSomeLine(ValidPatterns[i], argument)
    {
      if MatchesSomeLine(ValidPatterns[k], argument) {
        valid := true;
        return;
      }
      k := k + 1;
    }
  }

  /** One of the validator's flag loops: whether `re.search(key + '.+', argument)` succeeds for some
      argument, `argv[0]` included. */
  method OptionSpecified(argv: seq<string>, key: string) returns (specified: bool)
    ensures specified == exists k :: 0 <= k < |argv| && Search(argv[k], key, AnyButNewline).Some?
  {
    specified := false;
    for i := 0 to |argv|
      invariant specified == exists k :: 0 <= k < i && Search(argv[k], key, AnyButNewline).Some?
    {
      var m := Search(argv[i], key, AnyButNewline);
      if m.Some? {
        specified := true;
      }
    }
  }

  /** The validator's loop over the arguments: the first one that matches no pattern. */
  method FindInvalidArgument(args: seq<string>) returns (r: Option<nat>)
    ensures r == FirstInvalid(args)
  {
    for i := 0 to |args|
      invariant forall k :: 0 <= k < i ==> IsValidArgument(args[k])
    {
      var argumentIsValid := ArgumentIsValid(args[i]);
      if !argumentIsValid {
        return Some(i);
      }
    }
    return None;
  }

  /** `filterCommandlineOptionDescrepency(argv)`: `None` when it returns, otherwise the reason of its
      `exit(1)`. */
  method FilterOptions(argv: seq<string>) returns (r: Option<Error>)
    ensures r == ValidationError(argv)
  {
    var libSpecified := OptionSpecified(argv, "--lib=");
    var binarySpecified := OptionSpecified(argv, "--binary=");
    var args := Arguments(argv);
    var invalid := FindInvalidArgument(args);
    if invalid.Some? {
      return Some(InvalidArgument(args[invalid.value]));
    }
    if "--print" in argv && "--make" in argv {
      return Some(PrintWithMake);
    }
    if libSpecified && "--run" in argv {
      return Some(RunWithLib);
    }
    if "--run" in argv && "--make" !in argv {
      return Some(RunWithoutMake);
    }
    if binarySpecified && libSpecified {
      return Some(BinaryWithLib);
    }
    return None;
  }

  // ---- Option values ----

  /** `int(s)` for a run of ASCII digits. */
  function DigitsValue(s: string): nat
    requires forall k :: 0 <= k < |s| ==> IsDigit(s[k])
  {
    if s == "" then 0
    else
      assert IsDigit(s[|s| - 1]);
      DigitsValue(s[..|s| - 1]) * 10 + (s[|s| - 1] as int - '0' as int)
  }

  /** The decimal text of a number, as `str(n)` writes it. */
  function Decimal(n: nat): (r: string)
    ensures |r| >= 1 && forall k :: 0 <= k < |r| ==> IsDigit(r[k])
    decreases n
  {
    var last := ['0' + ((n % 10) as char)];
    if n < 10 then last else Decimal(n / 10) + last
  }

  /** `int(str(n)) == n`. */
  lemma {:induction false} DigitsOfDecimal(n: nat)
    ensures DigitsValue(Decimal(n)) == n
    decreases n
  {
    var d := Decimal(n);
    if n >= 10 {
      DigitsOfDecimal(n / 10);
      assert d[..|d| - 1] == Decimal(n / 10);
    }
  }

  /** Leading zeros do not change the value: `int('0' + s) == int(s)`. */
  lemma {:induction false} LeadingZero(s: string)
    requires forall k :: 0 <= k < |s| ==> IsDigit(s[k])
    ensures DigitsValue("0" + s) == DigitsValue(s)
    decreases |s|
  {
    if s != "" {
      var init := s[..|s| - 1];
      LeadingZero(init);
      assert ("0" + s)[..|s|] == "0" + init;
    }
  }

  const DefaultDeplevel: nat := 15

  /** `maxrecurse`: the number of the last `--deplevel=<digits>`, else 15. */
  function Deplevel(argv: seq<string>): (r: nat)
  {
    match LastCapture(argv, "--deplevel=", Digit)
    case Some(d) =>
      assert forall k :: 0 <= k < |d| ==> IsDigit(d[k]) by {
        LastCaptureSpec(argv, "--deplevel=", Digit);
        var i :| 0 <= i < |argv| && Search(argv[i], "--deplevel=", Digit) == Some(d);
        SearchSpec(argv[i], "--deplevel=", Digit);
      }
      DigitsValue(d)
    case None => DefaultDeplevel
  }

  /** The `--deplevel=` loop of `main`: start from the default, and let every matching argument
      overwrite it with its number. */
  method DeplevelOption(argv: seq<string>) returns (maxrecurse: nat)
    ensures maxrecurse == Deplevel(argv)
  {
    maxrecurse := DefaultDeplevel;
    for i := 0 to |argv|
      invariant maxrecurse == Deplevel(argv[..i])
    {
      var m := Search(argv[i], "--deplevel=", Digit);
      assert argv[..i + 1][..i] == argv[..i];
      if m.Some? {
        SearchSpec(argv[i], "--deplevel=", Digit);
        maxrecurse := DigitsValue(m.value);
      }
    }
    assert argv[..|argv|] == argv;
  }

  /** The depth budget is the value of the last `--deplevel=` that is followed by digits, and the
      default when there is none. */
  lemma {:induction false} DeplevelSpec(argv: seq<string>, n: nat)
    ensures (forall i :: 0 <= i < |argv| ==> Search(argv[i], "--deplevel=", Digit).None?) ==>
      Deplevel(argv) == DefaultDeplevel
    ensures Deplevel(argv + ["--deplevel=" + Decimal(n)]) == n
  {
    LastCaptureSpec(argv, "--deplevel=", Digit);
    var a := argv + ["--deplevel=" + Decimal(n)];
    var key := "--deplevel=";
    var arg := key + Decimal(n);
    assert MatchAt(arg, key, Digit, 0) by {
      assert arg[..|key|] == key;
      assert arg[|key|] == Decimal(n)[0];
    }
    assert arg[|key|..] == Decimal(n);
    assert Search(arg, key, Digit) == Some(Run(Digit, Decimal(n)));
    RunWhole(Digit, Decimal(n));
    assert a[..|a| - 1] == argv;
    DigitsOfDecimal(n);
  }

  /** The library name after the `lib` prefixing at supermake.py:313-316. */
  function LibraryName(name: string): string {
    var base := Basename(name);
    if StartsWith(base, "lib") then name else PathJoin(Dirname(name), "lib" + base)
  }

  /** The library's file name always starts with `lib`; a name that lacked it gains exactly that
      prefix and keeps its directory; naming is idempotent. */
  lemma {:induction false} LibraryNameSpec(name: string)
    ensures StartsWith(Basename(LibraryName(name)), "lib")
    ensures !StartsWith(Basename(name), "lib") ==>
      Basename(LibraryName(name)) == "lib" + Basename(name) && Dirname(LibraryName(name)) == Dirname(name)
    ensures LibraryName(LibraryName(name)) == LibraryName(name)
  {
    var base := Basename(name);
    if !StartsWith(base, "lib") {
      DirnameShape(name);
      assert '/' !in "lib" + base by {
        assert "lib" + base == "lib" + base;
        forall k | 0 <= k < |"lib" + base| ensures ("lib" + base)[k] != '/' {
          if k >= 3 { assert ("lib" + base)[k] == base[k - 3]; assert base[k - 3] in base; }
        }
      }
      JoinThenSplit(Dirname(name), "lib" + base);
      assert StartsWith("lib" + base, "lib");
    }
  }

  /** The tokens that print the usage text instead of running. */
  const HelpTokens: seq<string> := ["--help", "-help", "-h", "-?", "help", "/h", "/?"]

  predicate HelpRequested(argv: seq<string>) {
    exists t :: t in HelpTokens && t in argv
  }
}
