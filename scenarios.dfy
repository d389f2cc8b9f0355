/** Whole-process runs of the wrappers, each over a fresh process: the
    command lines of tests/tests.rs and the write-then-read round trips of
    the output wrapper. */
module Scenarios {
  import opened RustStd
  import opened ClapStdin
  import FileOrStdoutArg
  import FileOrStdinArg
  import opened MaybeStdinArg

  /** `["-", ...]` with any text piped in: a `MaybeStdin<String>` argument
      holds that text without its trailing whitespace. */
  method PositionalArgFromStdin(input: string) returns (first: Result<MaybeStdin<string>, StdinError>)
    ensures first == Ok(MaybeStdin(Source.Stdin, TrimEnd(input)))
  {
    var p := new Process(input, true, map[], {});
    first := MaybeStdinArg.FromStr(p, "-", ParseString);
  }

  /** `["FIRST", "--second", "-"]` with a number and a trailing newline (or
      any trailing whitespace) piped in: the `u32` argument gets the number. */
  method OptionalArgFromStdin(digits: string, w: string)
    returns (first: Result<string, StdinError>, second: Result<MaybeStdin<nat>, StdinError>)
    requires |digits| > 0 && AllDigits(digits) && Decimal(digits) < U32Limit
    requires AllWhitespace(w)
    ensures first == Ok("FIRST")
    ensures second == Ok(MaybeStdin(Source.Stdin, Decimal(digits)))
  {
    var p := new Process(digits + w, true, map[], {});
    first := Ok("FIRST");
    second := MaybeStdinArg.FromStr(p, "-", ParseU32);
    TrimEndAppendWhitespace(digits, w);
    assert !IsWhitespace(digits[|digits| - 1]);
    TrimEndUnique(digits, digits);
    ParseU32Correct(digits);
  }

  /** The `stdin_twice` fixture (a `MaybeStdin<String>` then a
      `MaybeStdin<u32>`) through `MaybeStdin::from_str` as written. With
      `["FIRST", digits]` both arguments are literals; with `["FIRST", "-"]`
      and the digits piped in (followed by any whitespace), the literal stays
      literal and the `u32` argument gets the piped number. */
  method FileThenStdin(digits: string, w: string)
    returns (first: Result<MaybeStdin<string>, StdinError>,
             literal: Result<MaybeStdin<nat>, StdinError>,
             second: Result<MaybeStdin<nat>, StdinError>)
    requires |digits| > 0 && AllDigits(digits) && Decimal(digits) < U32Limit
    requires AllWhitespace(w)
    ensures first == Ok(MaybeStdin(Source.Arg("FIRST"), "FIRST"))
    ensures literal == Ok(MaybeStdin(Source.Arg(digits), Decimal(digits)))
    ensures second == Ok(MaybeStdin(Source.Stdin, Decimal(digits)))
  {
    var p := new Process(digits + w, true, map[], {});
    first := MaybeStdinArg.FromStr(p, "FIRST", ParseString);
    ParseU32Correct(digits);
    assert digits != Sentinel by { assert IsDigit(digits[0]); }
    literal := MaybeStdinArg.FromStr(p, digits, ParseU32);
    second := MaybeStdinArg.FromStr(p, "-", ParseU32);
    TrimEndAppendWhitespace(digits, w);
    assert !IsWhitespace(digits[|digits| - 1]);
    TrimEndUnique(digits, digits);
  }

  /** `["-", "-"]` with guarded reads: the first argument gets the piped
      text and the second is refused with `StdInRepeatedUse`. */
  method StdinTwice(input: string)
    returns (first: Result<MaybeStdin<string>, StdinError>, second: Result<MaybeStdin<nat>, StdinError>)
    ensures first == Ok(MaybeStdin(Source.Stdin, TrimEnd(input)))
    ensures second == Err(StdInRepeatedUse)
  {
    var p := new Process(input, true, map[], {});
    first := MaybeStdinArg.FromStrGuarded(p, "-", ParseString);
    second := MaybeStdinArg.FromStrGuarded(p, "-", ParseU32);
  }

  /** `["-", "-"]` through `MaybeStdin::from_str` as written, in a process
      that has not touched standard input: the second argument reads the
      drained stream and fails to parse the empty string instead of reporting
      `StdInRepeatedUse`; standard input is read twice and the flag is never
      set. */
  method StdinTwiceAsWritten(p: Process)
    returns (first: Result<MaybeStdin<string>, StdinError>, second: Result<MaybeStdin<nat>, StdinError>)
    requires p.Valid() && p.SingleRead() && !p.stdinHasBeenRead && p.stdinReadable
    modifies p`stdin, p`stdinReadable, p`stdinReads
    ensures first == Ok(MaybeStdin(Source.Stdin, TrimEnd(old(p.stdin))))
    ensures second == Err(StdinError.FromStr(EmptyMessage)) && second != Err(StdInRepeatedUse)
    ensures !p.stdinHasBeenRead && p.stdinReads == 2 && !p.SingleRead()
  {
    first := MaybeStdinArg.FromStr(p, "-", ParseString);
    second := MaybeStdinArg.FromStr(p, "-", ParseU32);
    assert TrimEnd("") == "";
  }

  /** The flag is process-wide: once a `FileOrStdin` argument has claimed
      standard input, a reader for `"-"` is refused. */
  method FileOrStdinThenReader(input: string)
    returns (first: Result<FileOrStdinArg.FileOrStdin<string>, StdinError>, second: Result<Reader, StdinError>)
    ensures first == Ok(FileOrStdinArg.FileOrStdin(TrimEnd(input)))
    ensures second == Err(StdInRepeatedUse)
  {
    var p := new Process(input, true, map[], {});
    first := FileOrStdinArg.FromStr(p, "-", ParseString);
    second := p.IntoReader(Source.Stdin);
  }

  /** Leading whitespace is not trimmed, so a number preceded by a space
      fails to parse as `u32`. */
  method LeadingWhitespace(input: string, i: nat) returns (r: Result<MaybeStdin<nat>, StdinError>)
    requires |input| > 0 && IsWhitespace(input[0])
    requires i < |input| && !IsWhitespace(input[i])
    ensures r == Err(StdinError.FromStr(InvalidDigitMessage))
  {
    var p := new Process(input, true, map[], {});
    r := MaybeStdinArg.FromStr(p, "-", ParseU32);
    TrimEndKeepsLeading(input, i);
    assert TrimEnd(input)[0] == input[0];
  }

  /** Only standard input is trimmed: a file holding `"42\n"` fails to
      parse as `u32` at the newline, while the same text piped in parses
      to 42. */
  method FileNotTrimmed(path: string)
    returns (fromFile: Result<FileOrStdinArg.FileOrStdin<nat>, StdinError>,
             fromStdin: Result<FileOrStdinArg.FileOrStdin<nat>, StdinError>)
    requires path != Sentinel
    ensures fromFile == Err(StdinError.FromStr(InvalidDigitMessage))
    ensures fromStdin == Ok(FileOrStdinArg.FileOrStdin(42))
  {
    var p := new Process("42\n", true, map[path := "42\n"], {});
    fromFile := FileOrStdinArg.FromStr(p, path, ParseU32);
    assert ParseU32("42\n") == Err(InvalidDigitMessage) by {
      assert Unsigned("42\n") == "42\n";
      assert "42\n"[1..] == "2\n" && "2\n"[1..] == "\n";
      assert Accumulate("\n", 42) == Err(InvalidDigitMessage);
      assert Accumulate("2\n", 4) == Accumulate("\n", 42);
      assert Accumulate("42\n", 0) == Accumulate("2\n", 4);
    }
    fromStdin := FileOrStdinArg.FromStr(p, "-", ParseU32);
    assert TrimEnd("42\n") == "42" by { TrimEndUnique("42\n", "42"); }
    ParseU32Correct("42");
    assert Decimal("42") == 42 by { assert "42"[..1] == "4" && "4"[..0] == ""; }
  }

  /** Writing `v` through a `Truncate` output argument and reading the file
      back through a `FileOrStdin<String>` argument yields exactly `v`,
      whatever the file held before. */
  method TruncateRoundTrip(files: map<string, string>, locked: set<string>, path: string, v: string)
    returns (back: Result<FileOrStdinArg.FileOrStdin<string>, StdinError>)
    requires path != Sentinel && path !in locked
    ensures back == Ok(FileOrStdinArg.FileOrStdin(v))
  {
    var p := new Process("", true, files, locked);
    var out := FileOrStdoutArg.FromStr(path, Truncate).value;
    var w := FileOrStdoutArg.IntoWriter(p, out);
    p.Write(w.value, v);
    assert p.files[path] == "" + v == v;
    back := FileOrStdinArg.FromStr(p, path, ParseString);
  }

  /** Writing `v` through an `Append` output argument keeps what the file
      held and adds `v` after it. */
  method AppendRoundTrip(files: map<string, string>, locked: set<string>, path: string, v: string)
    returns (back: Result<FileOrStdinArg.FileOrStdin<string>, StdinError>)
    requires path != Sentinel && path !in locked
    ensures back == Ok(FileOrStdinArg.FileOrStdin(ContentsOf(files, path) + v))
  {
    var p := new Process("", true, files, locked);
    var out := FileOrStdoutArg.FromStr(path, Append).value;
    var w := FileOrStdoutArg.IntoWriter(p, out);
    p.Write(w.value, v);
    back := FileOrStdinArg.FromStr(p, path, ParseString);
  }

  /** Standard output is always available and can be written repeatedly. */
  method StdoutTwice(a: string, b: string) returns (out: string)
    ensures out == a + b
  {
    var p := new Process("", true, map[], {});
    var dest := FileOrStdoutArg.FromStr("-", DefaultMode).value;
    var w1 := FileOrStdoutArg.IntoWriter(p, dest);
    p.Write(w1.value, a);
    var w2 := FileOrStdoutArg.IntoWriter(p, dest);
    p.Write(w2.value, b);
    out := p.stdout;
  }

  /** What a `FileOrStdin<String>` argument naming `path` resolves to. */
  function FileArgument(files: map<string, string>, locked: set<string>, path: string)
    : Result<FileOrStdinArg.FileOrStdin<string>, StdinError>
  {
    match ReadFileIn(files, locked, path)
    case Ok(contents) => Ok(FileOrStdinArg.FileOrStdin(contents))
    case Err(e) => Err(StdIn(e))
  }

  /** What the next `FileOrStdin<String>` argument `token` resolves to after
      the arguments `before`. */
  function NextResult(input: string, files: map<string, string>, locked: set<string>, before: seq<string>, token: string)
    : Result<FileOrStdinArg.FileOrStdin<string>, StdinError>
  {
    if token != Sentinel then FileArgument(files, locked, token)
    else if Sentinel in before then Err(StdInRepeatedUse)
    else Ok(FileOrStdinArg.FileOrStdin(TrimEnd(input)))
  }

  lemma SeenStep(tokens: seq<string>, i: nat)
    requires i < |tokens|
    ensures Sentinel in tokens[..i + 1] <==> Sentinel in tokens[..i] || tokens[i] == Sentinel
  {
  }

  /** A command line of `FileOrStdin<String>` arguments resolved left to
      right, as the argument parser does, in a process that has not touched
      standard input: the first `"-"` gets the piped text, every later `"-"`
      is refused with `StdInRepeatedUse`, every other token is read as a
      file, and standard input is read once if some token is `"-"` and never
      otherwise. */
  method ResolveArguments(p: Process, tokens: seq<string>)
    returns (results: seq<Result<FileOrStdinArg.FileOrStdin<string>, StdinError>>)
    requires p.Valid() && p.SingleRead() && !p.stdinHasBeenRead && p.stdinReadable
    modifies p`stdinHasBeenRead, p`claims, p`stdin, p`stdinReadable, p`stdinReads
    ensures |results| == |tokens|
    ensures forall j :: 0 <= j < |tokens| ==>
      results[j] == NextResult(old(p.stdin), p.files, p.locked, tokens[..j], tokens[j])
    ensures p.Valid() && p.SingleRead()
    ensures p.stdinHasBeenRead <==> Sentinel in tokens
    ensures p.stdinReads == if Sentinel in tokens then 1 else 0
  {
    ghost var input := p.stdin;
    results := [];
    var i := 0;
    while i < |tokens|
      invariant 0 <= i <= |tokens| && |results| == i
      invariant p.Valid() && p.SingleRead()
      invariant p.stdinHasBeenRead <==> Sentinel in tokens[..i]
      invariant p.stdinReads == if Sentinel in tokens[..i] then 1 else 0
      invariant !p.stdinHasBeenRead ==> p.stdin == input && p.stdinReadable
      invariant forall j :: 0 <= j < i ==> results[j] == NextResult(input, p.files, p.locked, tokens[..j], tokens[j])
    {
      ghost var claimedBefore := p.stdinHasBeenRead;
      var r := FileOrStdinArg.FromStr(p, tokens[i], ParseString);
      if tokens[i] != Sentinel {
        assert r == FileArgument(p.files, p.locked, tokens[i]);
      } else if claimedBefore {
        assert r == Err(StdInRepeatedUse);
      } else {
        assert r == Ok(FileOrStdinArg.FileOrStdin(TrimEnd(input)));
      }
      SeenStep(tokens, i);
      results := results + [r];
      i := i + 1;
    }
    assert tokens[..i] == tokens;
  }
}
