/** The makefile the program writes: its text as a function of the dependency lists, the flags and the
    options, the `+=` loop that builds it, and the line structure of that text. */
module Makefiles {
  import opened Text
  import opened Paths
  import opened Sources

  /** The one-line notice at the top of a generated makefile. */
  const MessageLine: string :=
    "#" + "This makefile was generated by Supermake. Modify as you " +
    "wish, but remember that your changes will not be preserved " +
    "when you run Supermake again. Try to use the available basic " +
    "options(see --help) to tune it how you desire, if possible. " +
    "Lastly, remember that Supermake is not suitable for most " +
    "involved projects' build requirements."

  /** `makefileMessage`: the notice and an empty line. */
  const MakefileMessage: string := MessageLine + "\n\n"

  /** What the makefile builds: a binary, or a static and a shared library. */
  datatype Target = Program(binary: string) | Library(library: string)

  /** Everything the text depends on. `header` is "neither `--print` nor `--descrete`". */
  datatype MakeConfig = MakeConfig(
    header: bool,
    entries: seq<SourceDeps>,  // fileDeps, in discovery order
    isCCode: bool,
    depend: seq<string>,       // the normalised library flags
    custom: string,            // the `--custom=` text, "" when absent
    usrlocal: bool,
    debug: bool,
    warn: bool,
    target: Target)

  function Compiler(isCCode: bool): string {
    if isCCode then "gcc" else "g++"
  }

  /** The object file of a source: its name minus 2 characters in a C project, minus 4 otherwise, plus `.o`. */
  function ObjectName(source: string, isCCode: bool): string {
    DropLast(source, if isCCode then 2 else 4) + ".o"
  }

  function Objects(entries: seq<SourceDeps>, isCCode: bool): (r: seq<string>)
    ensures |r| == |entries|
    ensures forall i :: 0 <= i < |entries| ==> r[i] == ObjectName(entries[i].source, isCCode)
  {
    seq(|entries|, i requires 0 <= i < |entries| => ObjectName(entries[i].source, isCCode))
  }

  /** `' ' + x` for each name, in order. */
  function Spaced(names: seq<string>): string {
    if names == [] then "" else Spaced(names[..|names| - 1]) + " " + names[|names| - 1]
  }

  /** `s` when the condition holds, else nothing: an `if c: makefile += s` step. */
  function When(c: bool, s: string): string {
    if c then s else ""
  }

  lemma {:induction false} SpacedStep(prefix: string, names: seq<string>, i: nat)
    requires i < |names|
    ensures prefix + Spaced(names[..i + 1]) == prefix + Spaced(names[..i]) + " " + names[i]
  {
    assert names[..i + 1][..i] == names[..i];
    AppendAssociative(prefix + Spaced(names[..i]), " ", names[i]);
  }

  function HeaderText(cfg: MakeConfig): string {
    When(cfg.header, MakefileMessage)
  }

  function ObjsLine(cfg: MakeConfig): string {
    "OBJS =" + Spaced(Objects(cfg.entries, cfg.isCCode))
  }

  function ObjsText(cfg: MakeConfig): string {
    ObjsLine(cfg) + "\n"
  }

  function CustomText(cfg: MakeConfig): string {
    When(cfg.custom != "", "CUSTOMFLAGS = " + cfg.custom + "\n")
  }

  function FlagsLine(cfg: MakeConfig): string {
    "FLAGS =" + When(cfg.usrlocal, " -L/usr/local/include ") + " " + Join(" ", cfg.depend) +
    When(cfg.debug, " -g -DDEBUG") + When(cfg.warn, " -Wall") + When(cfg.custom != "", " $(CUSTOMFLAGS)")
  }

  function FlagsText(cfg: MakeConfig): string {
    FlagsLine(cfg) + "\n\n"
  }

  /** The rule that links the binary, or the `all`, static and shared library rules. */
  function TargetText(cfg: MakeConfig): string {
    var compiler := Compiler(cfg.isCCode);
    match cfg.target
    case Program(binary) =>
      (binary + ": $(OBJS)\n") +
      ("\t" + compiler + " $(FLAGS) $(OBJS) -o " + binary + "\n\n")
    case Library(library) =>
      ("all: " + library + ".a " + library + ".so\n\n") +
      (library + ".a: $(OBJS)\n") +
      ("\tar rcs " + library + ".a $(OBJS)\n\n") +
      (library + ".so: $(OBJS)\n") +
      ("\t" + compiler + " -shared -Wl,-soname," + Basename(library) + ".so $(OBJS) -o " + library + ".so\n\n")
  }

  function RuleHead(e: SourceDeps, isCCode: bool): string {
    ObjectName(e.source, isCCode) + ": " + e.source + " " + Join(" ", e.deps)
  }

  function RuleCommand(e: SourceDeps, isCCode: bool): string {
    "\t" + Compiler(isCCode) + " $(FLAGS) -c " + e.source + " -o " + ObjectName(e.source, isCCode)
  }

  /** The rule that compiles one source into its object file. */
  function RuleText(e: SourceDeps, isCCode: bool): string {
    (RuleHead(e, isCCode) + "\n") + (RuleCommand(e, isCCode) + "\n\n")
  }

  function RulesText(entries: seq<SourceDeps>, isCCode: bool): string {
    if entries == [] then ""
    else RulesText(entries[..|entries| - 1], isCCode) + RuleText(entries[|entries| - 1], isCCode)
  }

  lemma {:induction false} RulesStep(entries: seq<SourceDeps>, isCCode: bool, i: nat)
    requires i < |entries|
    ensures RulesText(entries[..i + 1], isCCode) == RulesText(entries[..i], isCCode) + RuleText(entries[i], isCCode)
  {
    assert entries[..i + 1][..i] == entries[..i];
  }

  function CleanText(target: Target): string {
    match target
    case Program(binary) => "clean:\n\trm -f " + binary + " *.o"
    case Library(library) => "clean:\n\trm -f " + library + ".a " + library + ".so *.o"
  }

  /** The whole makefile, section by section. */
  function MakefileText(cfg: MakeConfig): string {
    HeaderText(cfg) + ObjsText(cfg) + CustomText(cfg) + FlagsText(cfg) + TargetText(cfg) +
    RulesText(cfg.entries, cfg.isCCode) + CleanText(cfg.target)
  }

  /** The `+=` steps that build the makefile (supermake.py:354-419), one method per section. */
  method BuildMakefile(cfg: MakeConfig) returns (makefile: string)
    ensures makefile == MakefileText(cfg)
  {
    makefile := HeaderSection(cfg);
    var objs := ObjsSection(cfg);
    makefile := makefile + objs;
    var custom := CustomSection(cfg);
    makefile := makefile + custom;
    var flags := FlagsSection(cfg);
    makefile := makefile + flags;
    var compiler := "g++";
    if cfg.isCCode {
      compiler := "gcc";
    }
    var targets := TargetSection(cfg, compiler);
    makefile := makefile + targets;
    var rules := RulesSection(cfg, compiler);
    makefile := makefile + rules;
    var clean := CleanSection(cfg);
    makefile := makefile + clean;
  }

  /** The notice, unless `--print` or `--descrete` was given. */
  method HeaderSection(cfg: MakeConfig) returns (text: string)
    ensures text == HeaderText(cfg)
  {
    text := "";
    if cfg.header {
      text := MakefileMessage;
    }
  }

  /** The `CUSTOMFLAGS` line, when `--custom=` gave flags. */
  method CustomSection(cfg: MakeConfig) returns (text: string)
    ensures text == CustomText(cfg)
  {
    text := "";
    if cfg.custom != "" {
      text := text + ("CUSTOMFLAGS = " + cfg.custom + "\n");
    }
  }

  /** The `clean` rule. */
  method CleanSection(cfg: MakeConfig) returns (text: string)
    ensures text == CleanText(cfg.target)
  {
    match cfg.target {
      case Program(binary) =>
        text := "clean:\n\trm -f " + binary + " *.o";
      case Library(library) =>
        text := "clean:\n\trm -f " + library + ".a " + library + ".so *.o";
    }
  }

  /** The `OBJS` line: one object name per source, in order. */
  method ObjsSection(cfg: MakeConfig) returns (text: string)
    ensures text == ObjsText(cfg)
  {
    text := "OBJS =";
    ghost var objs := Objects(cfg.entries, cfg.isCCode);
    var i := 0;
    while i < |cfg.entries|
      invariant 0 <= i <= |cfg.entries|
      invariant text == "OBJS =" + Spaced(objs[..i])
    {
      var name: string;
      if cfg.isCCode {
        name := DropLast(cfg.entries[i].source, 2) + ".o";
      } else {
        name := DropLast(cfg.entries[i].source, 4) + ".o";
      }
      assert name == objs[i];
      SpacedStep("OBJS =", objs, i);
      text := text + " " + name;
      i := i + 1;
    }
    assert objs[..i] == objs;
    text := text + "\n";
  }

  /** The `FLAGS` line and the empty line after it. */
  method FlagsSection(cfg: MakeConfig) returns (text: string)
    ensures text == FlagsText(cfg)
  {
    text := "FLAGS =";
    if cfg.usrlocal {
      text := text + " -L/usr/local/include ";
    }
    assert text == "FLAGS =" + When(cfg.usrlocal, " -L/usr/local/include ");
    text := text + " " + Join(" ", cfg.depend);
    ghost var t1 := text;
    if cfg.debug {
      text := text + " -g -DDEBUG";
    }
    assert text == t1 + When(cfg.debug, " -g -DDEBUG");
    ghost var t2 := text;
    if cfg.warn {
      text := text + " -Wall";
    }
    assert text == t2 + When(cfg.warn, " -Wall");
    ghost var t3 := text;
    if cfg.custom != "" {
      text := text + " $(CUSTOMFLAGS)";
    }
    assert text == t3 + When(cfg.custom != "", " $(CUSTOMFLAGS)");
    text := text + "\n\n";
  }

  /** The binary's link rule, or the library rules. */
  method TargetSection(cfg: MakeConfig, compiler: string) returns (text: string)
    requires compiler == Compiler(cfg.isCCode)
    ensures text == TargetText(cfg)
  {
    match cfg.target {
      case Program(binary) =>
        text := binary + ": $(OBJS)\n";
        text := text + ("\t" + compiler + " $(FLAGS) $(OBJS) -o " + binary + "\n\n");
      case Library(library) =>
        text := "all: " + library + ".a " + library + ".so\n\n";
        text := text + (library + ".a: $(OBJS)\n");
        text := text + ("\tar rcs " + library + ".a $(OBJS)\n\n");
        text := text + (library + ".so: $(OBJS)\n");
        text := text + ("\t" + compiler + " -shared -Wl,-soname," + Basename(library) + ".so $(OBJS) -o " + library + ".so\n\n");
    }
  }

  /** One compile rule per source, in order. */
  method RulesSection(cfg: MakeConfig, compiler: string) returns (text: string)
    requires compiler == Compiler(cfg.isCCode)
    ensures text == RulesText(cfg.entries, cfg.isCCode)
  {
    text := "";
    var i := 0;
    while i < |cfg.entries|
      invariant 0 <= i <= |cfg.entries|
      invariant text == RulesText(cfg.entries[..i], cfg.isCCode)
    {
      var e := cfg.entries[i];
      var objectFileName: string;
      if cfg.isCCode {
        objectFileName := DropLast(e.source, 2) + ".o";
      } else {
        objectFileName := DropLast(e.source, 4) + ".o";
      }
      assert objectFileName == ObjectName(e.source, cfg.isCCode);
      var head := objectFileName + ": " + e.source + " " + Join(" ", e.deps) + "\n";
      var command := "\t" + compiler + " $(FLAGS) -c " + e.source + " -o " + objectFileName + "\n\n";
      assert head + command == RuleText(e, cfg.isCCode);
      RulesStep(cfg.entries, cfg.isCCode, i);
      AppendAssociative(text, head, command);
      text := text + head;
      text := text + command;
      i := i + 1;
    }
    assert cfg.entries[..i] == cfg.entries;
  }

  // The line structure of the text after the notice.

  function CustomLines(cfg: MakeConfig): seq<string> {
    if cfg.custom != "" then ["CUSTOMFLAGS = " + cfg.custom] else []
  }

  function TargetLines(cfg: MakeConfig): seq<string> {
    var compiler := Compiler(cfg.isCCode);
    match cfg.target
    case Program(binary) =>
      [binary + ": $(OBJS)", "\t" + compiler + " $(FLAGS) $(OBJS) -o " + binary, ""]
    case Library(library) =>
      ["all: " + library + ".a " + library + ".so", "",
       library + ".a: $(OBJS)", "\tar rcs " + library + ".a $(OBJS)", "",
       library + ".so: $(OBJS)",
       "\t" + compiler + " -shared -Wl,-soname," + Basename(library) + ".so $(OBJS) -o " + library + ".so", ""]
  }

  function RuleLines(e: SourceDeps, isCCode: bool): seq<string> {
    [RuleHead(e, isCCode), RuleCommand(e, isCCode), ""]
  }

  function RulesLines(entries: seq<SourceDeps>, isCCode: bool): seq<string> {
    if entries == [] then []
    else RulesLines(entries[..|entries| - 1], isCCode) + RuleLines(entries[|entries| - 1], isCCode)
  }

  function CleanCommand(target: Target): string {
    match target
    case Program(binary) => "\trm -f " + binary + " *.o"
    case Library(library) => "\trm -f " + library + ".a " + library + ".so *.o"
  }

  /** The lines that precede the rules for the sources. */
  function PreambleLines(cfg: MakeConfig): seq<string> {
    [ObjsLine(cfg)] + CustomLines(cfg) + [FlagsLine(cfg), ""] + TargetLines(cfg)
  }

  /** The lines after the notice that end with a line break. */
  function LeadingLines(cfg: MakeConfig): seq<string> {
    PreambleLines(cfg) + RulesLines(cfg.entries, cfg.isCCode) + ["clean:"]
  }

  /** The lines after the notice, in order; the last one has no line break after it. */
  function BodyLines(cfg: MakeConfig): seq<string> {
    LeadingLines(cfg) + [CleanCommand(cfg.target)]
  }

  predicate AllOneLine(lines: seq<string>) {
    forall i :: 0 <= i < |lines| ==> OneLine(lines[i])
  }

  lemma {:induction false} Terminated3(a: string, b: string, c: string)
    ensures Terminated([a, b, c]) == a + "\n" + (b + "\n" + (c + "\n"))
  {
    assert [a, b, c] == [a] + ([b] + [c]);
    TerminatedCons(a, [b] + [c]);
    TerminatedCons(b, [c]);
    TerminatedCons(c, []);
  }

  /** A line, its command and an empty line: the shape of every rule. */
  lemma {:induction false} RuleBlock(rule: string, command: string)
    ensures (rule + "\n") + (command + "\n\n") == Terminated([rule, command, ""])
  {
    Terminated3(rule, command, "");
    assert "\n\n" == "\n" + ("" + "\n");
  }

  lemma {:induction false} LibraryLayout(library: string, compiler: string, base: string)
    ensures ("all: " + library + ".a " + library + ".so\n\n") +
      (library + ".a: $(OBJS)\n") +
      ("\tar rcs " + library + ".a $(OBJS)\n\n") +
      (library + ".so: $(OBJS)\n") +
      ("\t" + compiler + " -shared -Wl,-soname," + base + ".so $(OBJS) -o " + library + ".so\n\n") ==
      Terminated(["all: " + library + ".a " + library + ".so", "",
       library + ".a: $(OBJS)", "\tar rcs " + library + ".a $(OBJS)", "",
       library + ".so: $(OBJS)",
       "\t" + compiler + " -shared -Wl,-soname," + base + ".so $(OBJS) -o " + library + ".so", ""])
  {
    var all := "all: " + library + ".a " + library + ".so";
    var a := library + ".a: $(OBJS)";
    var ar := "\tar rcs " + library + ".a $(OBJS)";
    var so := library + ".so: $(OBJS)";
    var link := "\t" + compiler + " -shared -Wl,-soname," + base + ".so $(OBJS) -o " + library + ".so";
    var s1 := "all: " + library + ".a " + library + ".so\n\n";
    var s2 := library + ".a: $(OBJS)\n";
    var s3 := "\tar rcs " + library + ".a $(OBJS)\n\n";
    var s4 := library + ".so: $(OBJS)\n";
    var s5 := link + "\n\n";
    assert s1 + s2 + s3 == Terminated([all, ""] + [a, ar, ""]) by {
      assert s1 == Terminated([all, ""]) by {
        TerminatedCons(all, [""]);
        TerminatedCons("", []);
      }
      assert s2 == a + "\n";
      RuleBlock(a, ar);
      AppendAssociative(s1, s2, s3);
      TerminatedAppend([all, ""], [a, ar, ""]);
    }
    assert s4 + s5 == Terminated([so, link, ""]) by {
      assert s4 == so + "\n";
      RuleBlock(so, link);
    }
    AppendAssociative(s1 + s2 + s3, s4, s5);
    TerminatedAppend([all, ""] + [a, ar, ""], [so, link, ""]);
    assert [all, "", a, ar, "", so, link, ""] == [all, ""] + [a, ar, ""] + [so, link, ""];
  }

  lemma {:induction false} TargetLayout(cfg: MakeConfig)
    ensures TargetText(cfg) == Terminated(TargetLines(cfg))
  {
    match cfg.target
    case Program(binary) =>
      RuleBlock(binary + ": $(OBJS)", "\t" + Compiler(cfg.isCCode) + " $(FLAGS) $(OBJS) -o " + binary);
    case Library(library) =>
      LibraryLayout(library, Compiler(cfg.isCCode), Basename(library));
  }

  lemma {:induction false} RulesLayout(entries: seq<SourceDeps>, isCCode: bool)
    ensures RulesText(entries, isCCode) == Terminated(RulesLines(entries, isCCode))
    decreases |entries|
  {
    if entries != [] {
      var e := entries[|entries| - 1];
      RulesLayout(entries[..|entries| - 1], isCCode);
      TerminatedAppend(RulesLines(entries[..|entries| - 1], isCCode), RuleLines(e, isCCode));
      RuleBlock(RuleHead(e, isCCode), RuleCommand(e, isCCode));
    }
  }

  /** Each source contributes exactly its rule, its compile command and an empty line, in source order. */
  lemma {:induction false} RulesShape(entries: seq<SourceDeps>, isCCode: bool)
    ensures |RulesLines(entries, isCCode)| == 3 * |entries|
    ensures forall i, k :: 0 <= i < |entries| && 0 <= k < 3 ==>
      RulesLines(entries, isCCode)[3 * i + k] == RuleLines(entries[i], isCCode)[k]
    decreases |entries|
  {
    if entries != [] {
      var n := |entries|;
      var init := entries[..n - 1];
      RulesShape(init, isCCode);
      var before := RulesLines(init, isCCode);
      var last := RuleLines(entries[n - 1], isCCode);
      assert RulesLines(entries, isCCode) == before + last;
      forall i, k | 0 <= i < n && 0 <= k < 3
        ensures (before + last)[3 * i + k] == RuleLines(entries[i], isCCode)[k]
      {
        if i < n - 1 {
          assert init[i] == entries[i];
        }
      }
    }
  }

  /** Putting the sections together. */
  lemma {:induction false} Assemble(header: string, objs: string, custom: seq<string>, flags: string,
                                    target: seq<string>, rules: seq<string>, clean: string)
    ensures header + (objs + "\n") + Terminated(custom) + (flags + "\n\n") + Terminated(target) +
      Terminated(rules) + ("clean:\n" + clean) ==
      header + Terminated([objs] + custom + [flags, ""] + target + rules + ["clean:"]) + clean
  {
    var l1 := [objs];
    var l2 := l1 + custom;
    var l3 := l2 + [flags, ""];
    var l4 := l3 + target;
    var l5 := l4 + rules;
    var l6 := l5 + ["clean:"];
    assert objs + "\n" == Terminated(l1) by {
      TerminatedCons(objs, []);
    }
    assert flags + "\n\n" == Terminated([flags, ""]) by {
      TerminatedCons(flags, [""]);
      TerminatedCons("", []);
    }
    assert "clean:\n" + clean == Terminated(["clean:"]) + clean by {
      TerminatedCons("clean:", []);
    }
    TerminatedAppend(l1, custom);
    AppendAssociative(header, Terminated(l1), Terminated(custom));
    TerminatedAppend(l2, [flags, ""]);
    AppendAssociative(header, Terminated(l2), Terminated([flags, ""]));
    TerminatedAppend(l3, target);
    AppendAssociative(header, Terminated(l3), Terminated(target));
    TerminatedAppend(l4, rules);
    AppendAssociative(header, Terminated(l4), Terminated(rules));
    TerminatedAppend(l5, ["clean:"]);
    AppendAssociative(header + Terminated(l5), Terminated(["clean:"]), clean);
    AppendAssociative(header, Terminated(l5), Terminated(["clean:"]));
  }

  lemma {:induction false} CleanLayout(target: Target)
    ensures CleanText(target) == "clean:\n" + CleanCommand(target)
  {
  }

  /** The makefile is the notice (when present) followed by its body lines, each ended by a line break
      except the last. */
  lemma {:induction false} MakefileLayout(cfg: MakeConfig)
    ensures MakefileText(cfg) == HeaderText(cfg) + Terminated(LeadingLines(cfg)) + CleanCommand(cfg.target)
  {
    TargetLayout(cfg);
    RulesLayout(cfg.entries, cfg.isCCode);
    assert CustomText(cfg) == Terminated(CustomLines(cfg)) by {
      if cfg.custom != "" {
        TerminatedCons("CUSTOMFLAGS = " + cfg.custom, []);
      }
    }
    CleanLayout(cfg.target);
    Assemble(HeaderText(cfg), ObjsLine(cfg), CustomLines(cfg), FlagsLine(cfg), TargetLines(cfg),
             RulesLines(cfg.entries, cfg.isCCode), CleanCommand(cfg.target));
  }

  lemma {:induction false} NoticeStart()
    ensures MakefileMessage != [] && MakefileMessage[0] == '#'
  {
  }

  lemma {:induction false} HeaderThenBody(notice: string, present: bool, lines: seq<string>, clean: string)
    requires notice != [] && notice[0] == '#'
    requires lines != [] && StartsWith(lines[0], "OBJS =")
    ensures StartsWith(When(present, notice) + Terminated(lines) + clean, notice) <==> present
    ensures !present ==> StartsWith(When(present, notice) + Terminated(lines) + clean, "OBJS =")
  {
    var rest := Terminated(lines) + clean;
    AppendAssociative(When(present, notice), Terminated(lines), clean);
    assert lines == [lines[0]] + lines[1..];
    TerminatedCons(lines[0], lines[1..]);
    AppendAssociative(lines[0] + "\n", Terminated(lines[1..]), clean);
    assert rest[..6] == lines[0][..6];
    if present {
      assert (notice + rest)[..|notice|] == notice;
    } else {
      assert rest[0] == 'O';
    }
  }

  /** The notice opens the makefile exactly when neither `--print` nor `--descrete` was given; without
      it the makefile opens with the `OBJS` line. */
  lemma {:induction false} MakefileHeader(cfg: MakeConfig)
    ensures StartsWith(MakefileText(cfg), MakefileMessage) <==> cfg.header
    ensures !cfg.header ==> StartsWith(MakefileText(cfg), "OBJS =")
  {
    MakefileLayout(cfg);
    LeadingFirst(cfg);
    NoticeStart();
    HeaderThenBody(MakefileMessage, cfg.header, LeadingLines(cfg), CleanCommand(cfg.target));
  }

  lemma {:induction false} LeadingFirst(cfg: MakeConfig)
    ensures LeadingLines(cfg) != [] && StartsWith(LeadingLines(cfg)[0], "OBJS =")
  {
    assert LeadingLines(cfg)[0] == ObjsLine(cfg);
  }

  lemma {:induction false} SplitBody(header: string, lines: seq<string>, clean: string)
    requires AllOneLine(lines + [clean])
    ensures Split((header + Terminated(lines) + clean)[|header|..], '\n') == lines + [clean]
  {
    AppendAssociative(header, Terminated(lines), clean);
    assert (header + (Terminated(lines) + clean))[|header|..] == Terminated(lines) + clean;
    forall i | 0 <= i < |lines| ensures OneLine(lines[i]) {
      assert (lines + [clean])[i] == lines[i];
    }
    SplitTerminated(lines, clean);
    assert OneLine(clean) by {
      assert (lines + [clean])[|lines|] == clean;
    }
    SplitWithout(clean, '\n');
  }

  /** When no line of the body holds a line break, splitting the text after the notice at line breaks
      gives back exactly the body lines. */
  lemma {:induction false} MakefileSplit(cfg: MakeConfig)
    requires AllOneLine(BodyLines(cfg))
    ensures Split(MakefileText(cfg)[|HeaderText(cfg)|..], '\n') == BodyLines(cfg)
  {
    MakefileLayout(cfg);
    SplitBody(HeaderText(cfg), LeadingLines(cfg), CleanCommand(cfg.target));
  }

  lemma {:induction false} BodyShape(pre: seq<string>, rules: seq<string>, clean: string, blocks: nat)
    requires |rules| == 3 * blocks
    ensures |pre + rules + ["clean:"] + [clean]| == |pre| + 3 * blocks + 2
    ensures forall j :: 0 <= j < |rules| ==> (pre + rules + ["clean:"] + [clean])[|pre| + j] == rules[j]
    ensures (pre + rules + ["clean:"] + [clean])[|pre| + 3 * blocks] == "clean:"
    ensures (pre + rules + ["clean:"] + [clean])[|pre| + 3 * blocks + 1] == clean
  {
  }

  /** The body: the `OBJS` line first, then exactly one rule, command and empty line per source in
      source order right after the preamble, and the `clean` rule last. */
  lemma {:induction false} MakefileBody(cfg: MakeConfig)
    ensures BodyLines(cfg)[0] == ObjsLine(cfg)
    ensures |BodyLines(cfg)| == |PreambleLines(cfg)| + 3 * |cfg.entries| + 2
    ensures forall i, k :: 0 <= i < |cfg.entries| && 0 <= k < 3 ==>
      BodyLines(cfg)[|PreambleLines(cfg)| + 3 * i + k] == RuleLines(cfg.entries[i], cfg.isCCode)[k]
    ensures BodyLines(cfg)[|BodyLines(cfg)| - 2] == "clean:"
    ensures BodyLines(cfg)[|BodyLines(cfg)| - 1] == CleanCommand(cfg.target)
  {
    var pre := PreambleLines(cfg);
    var rules := RulesLines(cfg.entries, cfg.isCCode);
    RulesShape(cfg.entries, cfg.isCCode);
    BodyShape(pre, rules, CleanCommand(cfg.target), |cfg.entries|);
    assert BodyLines(cfg) == pre + rules + ["clean:"] + [CleanCommand(cfg.target)];
    forall i, k | 0 <= i < |cfg.entries| && 0 <= k < 3
      ensures BodyLines(cfg)[|pre| + 3 * i + k] == RuleLines(cfg.entries[i], cfg.isCCode)[k]
    {
      assert BodyLines(cfg)[|pre| + (3 * i + k)] == rules[3 * i + k];
    }
  }

  lemma {:induction false} SpacedSplit(names: seq<string>)
    requires forall i :: 0 <= i < |names| ==> ' ' !in names[i]
    ensures Split("OBJS =" + Spaced(names), ' ') == ["OBJS", "="] + names
  {
    if names == [] {
      assert "OBJS =" + Spaced(names) == "OBJS" + [' '] + "=";
      SplitAfterFirst("OBJS", ' ', "=");
      SplitWithout("=", ' ');
    } else {
      SpacedJoin(names);
      assert "OBJS =" + Spaced(names) == "OBJS" + [' '] + ("=" + [' '] + Join([' '], names));
      SplitAfterFirst("OBJS", ' ', "=" + [' '] + Join([' '], names));
      SplitAfterFirst("=", ' ', Join([' '], names));
      SplitJoin(names, ' ');
    }
  }

  /** Splitting the `OBJS` line at spaces gives `OBJS`, `=` and then the object of every source, in
      order, when no object name holds a space. */
  lemma {:induction false} ObjsLineLists(cfg: MakeConfig)
    requires forall i :: 0 <= i < |cfg.entries| ==> ' ' !in ObjectName(cfg.entries[i].source, cfg.isCCode)
    ensures Split(ObjsLine(cfg), ' ') == ["OBJS", "="] + Objects(cfg.entries, cfg.isCCode)
  {
    SpacedSplit(Objects(cfg.entries, cfg.isCCode));
  }

  /** An optional step that appends a space and a word adds the word as one more piece, when the word
      holds no space. */
  lemma {:induction false} SplitOptional(s: string, on: bool, spaced: string)
    requires |spaced| > 0 && spaced[0] == ' ' && ' ' !in spaced[1..]
    ensures Split(s + When(on, spaced), ' ') == Split(s, ' ') + (if on then [spaced[1..]] else [])
  {
    if on {
      assert spaced == [' '] + spaced[1..];
      AppendAssociative(s, [' '], spaced[1..]);
      SplitWord(s, ' ', spaced[1..]);
    } else {
      assert s + When(on, spaced) == s;
    }
  }

  /** The `--debug` step adds the two pieces `-g` and `-DDEBUG`. */
  lemma {:induction false} SplitDebug(s: string, on: bool)
    ensures Split(s + When(on, " -g -DDEBUG"), ' ') == Split(s, ' ') + (if on then ["-g", "-DDEBUG"] else [])
  {
    if on {
      assert " -g -DDEBUG" == " -g" + " -DDEBUG";
      AppendAssociative(s, " -g", " -DDEBUG");
      SplitOptional(s, true, " -g");
      SplitOptional(s + " -g", true, " -DDEBUG");
      assert " -g"[1..] == "-g" && " -DDEBUG"[1..] == "-DDEBUG";
    } else {
      assert s + When(on, " -g -DDEBUG") == s;
    }
  }

  /** Two words, then optionally a space, a third word and a trailing space. */
  lemma {:induction false} TwoWordsThenOptional(a: string, b: string, c: string, on: bool)
    requires ' ' !in a && ' ' !in b && ' ' !in c
    ensures Split(a + " " + b + When(on, " " + c + " "), ' ') == [a, b] + (if on then [c, ""] else [])
  {
    var s := a + " " + b;
    SplitWithout(a, ' ');
    SplitWord(a, ' ', b);
    if on {
      assert s + When(on, " " + c + " ") == s + [' '] + (c + [' '] + "");
      SplitAround(s, ' ', c + [' '] + "");
      SplitWord(c, ' ', "");
      SplitWithout(c, ' ');
    } else {
      assert s + When(on, " " + c + " ") == s;
    }
  }

  /** The pieces of the `FLAGS` line before the library flags: `FLAGS`, `=` and, with `--usrlocal`, the
      `-L` option followed by the empty piece its trailing space leaves. */
  lemma {:induction false} FlagsHeadSplit(usrlocal: bool)
    ensures Split("FLAGS =" + When(usrlocal, " -L/usr/local/include "), ' ') ==
      ["FLAGS", "="] + (if usrlocal then ["-L/usr/local/include", ""] else [])
  {
    var flags, eq, opt := "FLAGS", "=", "-L/usr/local/include";
    assert "FLAGS =" + When(usrlocal, " -L/usr/local/include ") == flags + " " + eq + When(usrlocal, " " + opt + " ");
    TwoWordsThenOptional(flags, eq, opt, usrlocal);
  }

  /** The `--debug`, `--warn` and `--custom=` steps after the library flags each add their pieces. */
  lemma {:induction false} FlagsTailSplit(s: string, debug: bool, warn: bool, custom: bool)
    ensures Split(s + When(debug, " -g -DDEBUG") + When(warn, " -Wall") + When(custom, " $(CUSTOMFLAGS)"), ' ') ==
      Split(s, ' ') + (if debug then ["-g", "-DDEBUG"] else []) + (if warn then ["-Wall"] else []) +
      (if custom then ["$(CUSTOMFLAGS)"] else [])
  {
    var withDebug := s + When(debug, " -g -DDEBUG");
    SplitDebug(s, debug);
    SplitOptional(withDebug, warn, " -Wall");
    SplitOptional(withDebug + When(warn, " -Wall"), custom, " $(CUSTOMFLAGS)");
    assert " -Wall"[1..] == "-Wall" && " $(CUSTOMFLAGS)"[1..] == "$(CUSTOMFLAGS)";
  }

  /** Splitting the `FLAGS` line at spaces gives `FLAGS`, `=`, the `--usrlocal` option, then every
      library flag of `depend` in order (one empty piece when there are none), then `-g -DDEBUG`,
      `-Wall` and `$(CUSTOMFLAGS)` as the options ask, when no flag holds a space. */
  lemma {:induction false} FlagsLineLists(cfg: MakeConfig)
    requires forall i :: 0 <= i < |cfg.depend| ==> ' ' !in cfg.depend[i]
    ensures Split(FlagsLine(cfg), ' ') ==
      ["FLAGS", "="] + (if cfg.usrlocal then ["-L/usr/local/include", ""] else []) +
      (if cfg.depend == [] then [""] else cfg.depend) +
      (if cfg.debug then ["-g", "-DDEBUG"] else []) + (if cfg.warn then ["-Wall"] else []) +
      (if cfg.custom != "" then ["$(CUSTOMFLAGS)"] else [])
  {
    var head := "FLAGS =" + When(cfg.usrlocal, " -L/usr/local/include ");
    var line := head + " " + Join(" ", cfg.depend);
    FlagsHeadSplit(cfg.usrlocal);
    SplitAround(head, ' ', Join(" ", cfg.depend));
    if cfg.depend != [] {
      SplitJoin(cfg.depend, ' ');
    }
    FlagsTailSplit(line, cfg.debug, cfg.warn, cfg.custom != "");
  }

  /** `Spaced` is a space followed by the space-separated join. */
  lemma {:induction false} SpacedJoin(names: seq<string>)
    requires names != []
    ensures Spaced(names) == " " + Join(" ", names)
    decreases |names|
  {
    var init := names[..|names| - 1];
    var last := names[|names| - 1];
    if init != [] {
      SpacedJoin(init);
      JoinAppend(" ", init, last);
      assert init + [last] == names;
    }
  }
}
