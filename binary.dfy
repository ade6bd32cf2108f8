/** Naming the binary when neither `--lib=` nor `--binary=` gives a name: a chain of guessing strategies,
    the first one returning a non-empty name wins. */
module BinaryName {
  import opened Wrappers
  import opened Text
  import opened FileSystems

  /** What a strategy returns: `False` (or `None`) as `None`, a string as `Some`. */
  type Guess = Option<string>

  /** Python truthiness of a strategy's result: a non-empty string. */
  predicate Truthy(g: Guess) {
    g.Some? && g.value != ""
  }

  /** Strategy 3 (looking for existing binaries) is commented out and returns `False`. */
  function Strategy3(): Guess {
    None
  }

  /** Strategy 4 computes a directory prefix, discards it and returns `False`. */
  function Strategy4(): Guess {
    None
  }

  /** Strategy 5 over the entries `names` of `os.listdir('.')`: `main.run`, unless some source file's
      name does not start with `main`. */
  function Strategy5(fs: FileSystem, names: seq<string>): Guess {
    if names == [] then Some("main.run")
    else if IsSource(fs, names[0]) && !StartsWith(names[0], "main") then None
    else Strategy5(fs, names[1..])
  }

  /** A source file whose name does not start with `main`. */
  predicate OtherSource(fs: FileSystem, name: string) {
    IsSource(fs, name) && !StartsWith(name, "main")
  }

  /** Strategy 5 fails exactly when the listing holds a source not named `main...`; otherwise it
      names the binary `main.run`. */
  lemma {:induction false} Strategy5Spec(fs: FileSystem, names: seq<string>)
    ensures Strategy5(fs, names) == None <==> exists n :: n in names && OtherSource(fs, n)
    ensures Strategy5(fs, names) != None ==> Strategy5(fs, names) == Some("main.run")
  {
    if names != [] {
      Strategy5Spec(fs, names[1..]);
      if OtherSource(fs, names[0]) {
        assert names[0] in names;
      } else {
        assert forall n :: n in names && OtherSource(fs, n) ==> n in names[1..];
        assert forall n :: n in names[1..] ==> n in names;
      }
    }
  }

  /** The guess depends only on which entries there are, not on the order `os.listdir` returns them in. */
  lemma {:induction false} Strategy5OrderFree(fs: FileSystem, a: seq<string>, b: seq<string>)
    requires multiset(a) == multiset(b)
    ensures Strategy5(fs, a) == Strategy5(fs, b)
  {
    Strategy5Spec(fs, a);
    Strategy5Spec(fs, b);
    forall n ensures n in a <==> n in b {
      assert n in a <==> n in multiset(a);
      assert n in b <==> n in multiset(b);
    }
  }

  /** Strategy 5 sees only which entries there are and which of them are directories. */
  lemma {:induction false} Strategy5ListingFree(fs: FileSystem, fs2: FileSystem)
    requires fs2.dirs == fs.dirs && multiset(fs2.listing) == multiset(fs.listing)
    ensures Strategy5(fs2, fs2.listing) == Strategy5(fs, fs.listing)
  {
    Strategy5Spec(fs, fs.listing);
    Strategy5Spec(fs2, fs2.listing);
    forall n ensures n in fs.listing <==> n in fs2.listing {
      assert n in fs.listing <==> n in multiset(fs.listing);
      assert n in fs2.listing <==> n in multiset(fs2.listing);
    }
    assert forall n :: OtherSource(fs, n) <==> OtherSource(fs2, n);
  }

  /** Strategy 6 always names the binary. */
  function Strategy6(): Guess {
    Some("program.run")
  }

  /** The outcome of the guessing block: the name and the `crazyGuesswork` flag. */
  datatype Guessed = Guessed(binary: Guess, crazy: bool)

  /** The nested `if not binary:` chain. The `else:` that sets `crazyGuesswork` is indented to belong
      to the test after strategy 3, so it runs only when strategy 3 gives a name. Strategies 1 and 2
      (which look at the working directory and at licence text) are the inputs `s1` and `s2`. */
  function GuessBinary(fs: FileSystem, s1: Guess, s2: Guess): Guessed {
    if Truthy(s1) then Guessed(s1, false)
    else if Truthy(s2) then Guessed(s2, false)
    else if Truthy(Strategy3()) then Guessed(Strategy3(), true)
    else if Truthy(Strategy4()) then Guessed(Strategy4(), false)
    else if Truthy(Strategy5(fs, fs.listing)) then Guessed(Strategy5(fs, fs.listing), false)
    else Guessed(Strategy6(), false)
  }

  /** Reference definition: the first truthy guess of a list. */
  function FirstTruthy(gs: seq<Guess>): Guess {
    if gs == [] then None
    else if Truthy(gs[0]) then gs[0]
    else FirstTruthy(gs[1..])
  }

  lemma {:induction false} FirstTruthySpec(gs: seq<Guess>)
    ensures Truthy(FirstTruthy(gs)) <==> exists i :: 0 <= i < |gs| && Truthy(gs[i])
    ensures Truthy(FirstTruthy(gs)) ==>
      exists i :: 0 <= i < |gs| && Truthy(gs[i]) && FirstTruthy(gs) == gs[i] &&
        forall k :: 0 <= k < i ==> !Truthy(gs[k])
  {
    if gs != [] {
      FirstTruthySpec(gs[1..]);
      if !Truthy(gs[0]) && Truthy(FirstTruthy(gs)) {
        var i :| 0 <= i < |gs[1..]| && Truthy(gs[1..][i]) && FirstTruthy(gs[1..]) == gs[1..][i] &&
                 forall k :: 0 <= k < i ==> !Truthy(gs[1..][k]);
        assert gs[i + 1] == gs[1..][i];
        assert forall k :: 0 < k < i + 1 ==> gs[k] == gs[1..][k - 1];
      }
      if exists i :: 0 <= i < |gs| && Truthy(gs[i]) {
        var i :| 0 <= i < |gs| && Truthy(gs[i]);
        if i > 0 {
          assert Truthy(gs[1..][i - 1]);
        }
      }
    }
  }

  /** The strategies in the order the chain tries them. */
  function Strategies(fs: FileSystem, s1: Guess, s2: Guess): seq<Guess> {
    [s1, s2, Strategy3(), Strategy4(), Strategy5(fs, fs.listing), Strategy6()]
  }

  /** The chain picks the first strategy that gives a name, and always ends with one. */
  lemma {:induction false} GuessIsFirstTruthy(fs: FileSystem, s1: Guess, s2: Guess)
    ensures GuessBinary(fs, s1, s2).binary == FirstTruthy(Strategies(fs, s1, s2))
    ensures Truthy(GuessBinary(fs, s1, s2).binary)
  {
    var s5 := Strategy5(fs, fs.listing);
    var t5 := [s5, Strategy6()];
    var t4 := [Strategy4()] + t5;
    var t3 := [Strategy3()] + t4;
    var t2 := [s2] + t3;
    assert Strategies(fs, s1, s2) == [s1] + t2;
    assert FirstTruthy([Strategy6()]) == Strategy6();
    assert t5[1..] == [Strategy6()];
    assert FirstTruthy(t5) == if Truthy(s5) then s5 else Strategy6();
    assert FirstTruthy(t4) == FirstTruthy(t5) by { assert t4[1..] == t5; }
    assert FirstTruthy(t3) == FirstTruthy(t4) by { assert t3[1..] == t4; }
    assert FirstTruthy(t2) == if Truthy(s2) then s2 else FirstTruthy(t3) by { assert t2[1..] == t3; }
    assert ([s1] + t2)[1..] == t2;
  }

  /** When strategies 1 and 2 fail and the only sources are `main...` files, the binary is `main.run`. */
  lemma {:induction false} GuessMain(fs: FileSystem, s1: Guess, s2: Guess)
    requires !Truthy(s1) && !Truthy(s2)
    ensures GuessBinary(fs, s1, s2).binary ==
      if exists n :: n in fs.listing && OtherSource(fs, n) then Some("program.run") else Some("main.run")
  {
    Strategy5Spec(fs, fs.listing);
  }

  /** `crazyGuesswork` is never set: strategy 3 always fails, and the flag does not follow strategy 2. */
  lemma {:induction false} CrazyGuessworkNeverSet(fs: FileSystem, s1: Guess, s2: Guess)
    ensures !GuessBinary(fs, s1, s2).crazy
  {
  }
}
