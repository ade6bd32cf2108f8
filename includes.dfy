/** Extraction of `#include` directives from a file's text, line by line, with the meaning of the two
    regular expressions `^#include <(.+(?:\.h)?(?:pp)?)>` and `^#include "(.+\.h(?:pp)?)"` under
    `re.findall` with `re.MULTILINE`: a directive starts at the very beginning of a line, `.` never
    crosses a line break, and comments are not recognised. */
module Includes {
  import opened Wrappers
  import opened Text

  const AngleOpening: string := "#include <"
  const QuoteOpening: string := "#include \""

  datatype Form = Angle | Quoted

  /** The index of the last `c` in `s`. */
  function LastIndexOf(s: string, c: char): (r: Option<nat>)
    ensures r.Some? ==> r.value < |s| && s[r.value] == c && c !in s[r.value + 1..]
    ensures r.None? ==> c !in s
  {
    if s == "" then None
    else if s[|s| - 1] == c then Some(|s| - 1)
    else
      var r := LastIndexOf(s[..|s| - 1], c);
      assert s == s[..|s| - 1] + [s[|s| - 1]];
      assert r.Some? ==> s[r.value + 1..] == s[..|s| - 1][r.value + 1..] + [s[|s| - 1]];
      r
  }

  /** The angle form: the greedy `.+` reaches the last `>` of the line; it needs one character. */
  function AngleCapture(line: string): Option<string>
  {
    if !StartsWith(line, AngleOpening) then None
    else
      var rest := line[|AngleOpening|..];
      match LastIndexOf(rest, '>')
      case Some(k) => if k >= 1 then Some(rest[..k]) else None
      case None => None
  }

  /** The angle capture is precisely the non-empty text between `#include <` and the last `>`. */
  lemma {:induction false} AngleCaptureSpec(line: string, c: string)
    ensures AngleCapture(line) == Some(c) <==>
      |c| >= 1 && StartsWith(line, AngleOpening + c + ">") && '>' !in line[|AngleOpening| + |c| + 1..]
  {
    var n := |AngleOpening|;
    if |c| >= 1 && StartsWith(line, AngleOpening + c + ">") && '>' !in line[n + |c| + 1..] {
      var rest := line[n..];
      assert line[..n] == AngleOpening;
      assert rest[|c|] == '>';
      assert rest[|c| + 1..] == line[n + |c| + 1..];
      var k := LastIndexOf(rest, '>');
      assert rest[..|c|] == c;
    }
    if AngleCapture(line) == Some(c) {
      var rest := line[n..];
      var k := LastIndexOf(rest, '>').value;
      assert line == line[..n] + rest;
      assert line[..n + |c| + 1] == AngleOpening + c + ">";
      assert line[n + |c| + 1..] == rest[k + 1..];
    }
  }

  /** The quoted form with the `.+` part `rest[..j]`: `.hpp"` is tried before `.h"`. */
  function QuotedEndAt(rest: string, j: nat): Option<string>
  {
    if j + 5 <= |rest| && rest[j..j + 5] == ".hpp\"" then Some(rest[..j + 4])
    else if j + 3 <= |rest| && rest[j..j + 3] == ".h\"" then Some(rest[..j + 2])
    else None
  }

  /** Backtracking of the greedy `.+`: its longest length `j` first, down to one character. */
  function QuotedSearch(rest: string, j: nat): Option<string>
    decreases j
  {
    if j == 0 then None
    else match QuotedEndAt(rest, j)
      case Some(c) => Some(c)
      case None => QuotedSearch(rest, j - 1)
  }

  function QuotedCapture(line: string): Option<string>
  {
    if !StartsWith(line, QuoteOpening) then None
    else QuotedSearch(line[|QuoteOpening|..], |line| - |QuoteOpening|)
  }

  /** What the quoted pattern can capture from the text after `#include "`: at least one character,
      then `.h` or `.hpp`, followed by a closing quote. */
  predicate QuotedCandidate(rest: string, c: string) {
    StartsWith(rest, c + "\"") &&
    ((|c| >= 3 && EndsWith(c, ".h")) || (|c| >= 5 && EndsWith(c, ".hpp")))
  }

  function StemLength(c: string): int {
    if |c| >= 5 && EndsWith(c, ".hpp") then |c| - 4 else |c| - 2
  }

  lemma {:induction false} QuotedEndAtSound(rest: string, j: nat)
    requires 0 < j <= |rest|
    ensures QuotedEndAt(rest, j).Some? ==> QuotedCandidate(rest, QuotedEndAt(rest, j).value)
  {
    if j + 5 <= |rest| && rest[j..j + 5] == ".hpp\"" {
      var c := rest[..j + 4];
      assert c + "\"" == rest[..j + 5];
      assert rest[j..j + 4] == rest[j..j + 5][..4] == ".hpp";
      assert c[|c| - 4..] == rest[j..j + 4];
    } else if j + 3 <= |rest| && rest[j..j + 3] == ".h\"" {
      var c := rest[..j + 2];
      assert c + "\"" == rest[..j + 3];
      assert rest[j..j + 2] == rest[j..j + 3][..2] == ".h";
      assert c[|c| - 2..] == rest[j..j + 2];
    }
  }

  lemma {:induction false} QuotedSearchSound(rest: string, j: nat)
    requires j <= |rest|
    ensures QuotedSearch(rest, j).Some? ==> QuotedCandidate(rest, QuotedSearch(rest, j).value)
    decreases j
  {
    if j > 0 {
      QuotedEndAtSound(rest, j);
      if QuotedEndAt(rest, j).None? {
        QuotedSearchSound(rest, j - 1);
      }
    }
  }

  lemma {:induction false} QuotedSearchLongest(rest: string, j: nat, c: string)
    requires QuotedCandidate(rest, c)
    requires StemLength(c) <= j <= |rest|
    ensures QuotedSearch(rest, j).Some?
    ensures |QuotedSearch(rest, j).value| >= |c|
    decreases j
  {
    var s := StemLength(c);
    assert rest[..|c| + 1] == c + "\"";
    if j == s {
      if |c| >= 5 && EndsWith(c, ".hpp") {
        assert rest[j..j + 5] == c[j..] + "\"";
      } else {
        assert rest[j..j + 3] == c[j..] + "\"";
        assert rest[j + 2] == '"';
      }
    } else {
      match QuotedEndAt(rest, j)
      case Some(d) =>
        if |c| >= 5 && EndsWith(c, ".hpp") && j == s + 1 {
          assert rest[j] == c[s + 1] == 'h';
        }
      case None =>
        QuotedSearchLongest(rest, j - 1, c);
    }
  }

  /** The quoted capture is the longest candidate: it ends in `.h` or `.hpp` just before a `"`, and
      no longer such prefix of the line exists. */
  lemma {:induction false} QuotedCaptureSpec(line: string, c: string)
    ensures QuotedCapture(line).Some? ==>
      StartsWith(line, QuoteOpening) && QuotedCandidate(line[|QuoteOpening|..], QuotedCapture(line).value)
    ensures StartsWith(line, QuoteOpening) && QuotedCandidate(line[|QuoteOpening|..], c) ==>
      QuotedCapture(line).Some? && |QuotedCapture(line).value| >= |c|
  {
    if StartsWith(line, QuoteOpening) {
      var rest := line[|QuoteOpening|..];
      QuotedSearchSound(rest, |rest|);
      if QuotedCandidate(rest, c) {
        QuotedSearchLongest(rest, |rest|, c);
      }
    }
  }

  function Capture(form: Form, line: string): Option<string>
  {
    match form
    case Angle => AngleCapture(line)
    case Quoted => QuotedCapture(line)
  }

  /** The captures of the matching lines, in line order: `re.findall` over the whole text. */
  function CapturesOf(form: Form, lines: seq<string>): seq<string>
  {
    if lines == [] then []
    else
      CapturesOf(form, lines[..|lines| - 1]) +
      (match Capture(form, lines[|lines| - 1]) case Some(c) => [c] case None => [])
  }

  /** A capture comes from some line, and every matching line contributes its capture. */
  lemma {:induction false} CapturesOfSpec(form: Form, lines: seq<string>, c: string)
    ensures c in CapturesOf(form, lines) <==> exists i :: 0 <= i < |lines| && Capture(form, lines[i]) == Some(c)
  {
    if lines != [] {
      var init := lines[..|lines| - 1];
      CapturesOfSpec(form, init, c);
      assert forall i :: 0 <= i < |init| ==> init[i] == lines[i];
    }
  }

  /** The captures of two runs of lines are those of the first run followed by those of the second:
      the captures come in line order. */
  lemma {:induction false} CapturesOfAppend(form: Form, a: seq<string>, b: seq<string>)
    ensures CapturesOf(form, a + b) == CapturesOf(form, a) + CapturesOf(form, b)
    decreases |b|
  {
    if b == [] {
      assert a + b == a;
    } else {
      var init := b[..|b| - 1];
      assert (a + b)[..|a + b| - 1] == a + init && (a + b)[|a + b| - 1] == b[|b| - 1];
      CapturesOfAppend(form, a, init);
    }
  }

  /** The includes of one form in a file's text. */
  function FindIncludes(form: Form, text: string): seq<string>
  {
    CapturesOf(form, Split(text, '\n'))
  }
}
