# clap-stdin in Dafny

A model of the Rust library `clap-stdin`. It provides argument-value types for command-line programs. The value of an argument is the argument text, a file, or the whole of standard input, chosen by the token `"-"`. Standard input may be consumed at most once per process. A companion type sends output to standard output or to a file, in truncate or append mode.

The process the library runs in is modelled as a `Process` object. It holds:
- the process-wide flag `STDIN_HAS_BEEN_READ`;
- the text still waiting on standard input, and whether reading it fails;
- the file system, as a map from paths to contents plus a set of paths the process may not open;
- what has been written to standard output.

Two ghost counters record successful claims of standard input and whole-stream reads of it. `Valid()` states that at most one claim succeeds per process and that the flag records it. `SingleRead()` states that standard input is never read without a claim. Every guarded operation preserves both.

Files:
- `rust_std.dfy` (module `RustStd`): the standard-library pieces the wrappers call. These are `Result`, `char::is_whitespace`, `str::trim_end`, and the `FromStr` instances for `String` and `u32`.
- `clap_stdin.dfy` (module `ClapStdin`): src/lib.rs. It holds `Source`, `Dest`, their `from_str`, `WriteMode`, the `OpenOptions` builder, `StdinError` and the `Process` with `get_value`, `into_reader` and `into_writer_with_mode`.
- `file_or_stdout.dfy` (module `FileOrStdoutArg`): src/file_or_stdout.rs.
- `file_or_stdin.dfy` (module `FileOrStdinArg`): src/file_or_stdin.rs.
- `maybe_stdin.dfy` (module `MaybeStdinArg`): src/maybe_stdin.rs.
- `scenarios.dfy` (module `Scenarios`): whole runs over a fresh process. They cover the command lines of tests/tests.rs, resolving a whole command line, and writing a file then reading it back.

Where the sources disagree with each other, the model follows the code:
- src/file_or_stdin.rs imports `STDIN_HAS_BEEN_USED`, but src/lib.rs declares `STDIN_HAS_BEEN_READ`. Both are the one field `stdinHasBeenRead`.
- tests/tests.rs:86-95 expects `StdInRepeatedUse` for `["-", "-"]`, but `MaybeStdin::from_str` reads standard input without consulting the flag (see Findings). `FileOrStdin` parses a file's contents untrimmed; only standard input is trimmed.

## Model

| member | source | states |
|---|---|---|
| ClapStdin.SourceFromStr | src/lib.rs:121-126 | never fails; the result is `Stdin` exactly when the token is `"-"`, and otherwise it is `Arg` holding the token unchanged |
| ClapStdin.DestFromStr | src/lib.rs:165-170 | never fails; the result is `Stdout` exactly when the token is `"-"`, and otherwise it is `Arg` holding the token unchanged as the path |
| ClapStdin.FromStrInjective | src/lib.rs:121-126 | distinct tokens classify to distinct sources and distinct destinations |
| ClapStdin.Configure | src/lib.rs:35-53 | `Truncate` sets the builder's truncate flag, `Append` sets its append flag, and nothing else in the builder changes |
| ClapStdin.OpenOptions.constructor | src/lib.rs:152 | a new builder has every flag off |
| ClapStdin.OpenOptions.SetCreate | src/lib.rs:153 | sets the create flag only |
| ClapStdin.OpenOptions.SetWrite | src/lib.rs:153 | sets the write flag only |
| ClapStdin.OpenOptions.SetTruncate | src/lib.rs:37 | sets the truncate flag only |
| ClapStdin.OpenOptions.SetAppend | src/lib.rs:52 | sets the append flag only |
| ClapStdin.Process.constructor | src/lib.rs:64 | a process starts with the flag clear, no claims and no reads of standard input |
| ClapStdin.Process.ClaimStdin | src/lib.rs:104-107 | the claim succeeds exactly when the flag was clear; the flag is set afterwards in either case; the claim count grows only on success, so `Valid` (at most one claim) is kept |
| ClapStdin.Process.ReadStdinToString | src/lib.rs:108-111 | returns all of standard input, or the I/O error when it is not text; the stream is left drained and one more read is counted |
| ClapStdin.Process.GetValue | src/lib.rs:101-115 | `Arg(v)` gives `Ok(v)` and changes nothing. `Stdin` with the flag set gives `StdInRepeatedUse` and changes nothing. `Stdin` with the flag clear sets the flag before reading and returns the whole stream; the flag stays set if the read fails. `Valid` and `SingleRead` are kept |
| ClapStdin.Process.IntoReader | src/lib.rs:84-99 | `Stdin` claims standard input (or is refused with `StdInRepeatedUse` when already claimed) and reads nothing. A path gives a file reader when it can be opened and the I/O error otherwise, and leaves the flag alone |
| ClapStdin.Process.Open | src/lib.rs:155 | a locked path is refused; with truncate the file becomes empty; with append its contents (or nothing, if new) are kept; asking for both is `InvalidInput` |
| ClapStdin.Process.IntoWriterWithMode | src/lib.rs:146-159 | standard output always succeeds and changes no file. A path is created if missing; `Truncate` leaves it empty and `Append` keeps its contents; a path that cannot be opened gives the I/O error and no file changes |
| ClapStdin.Process.Write | src/lib.rs:31-59 | text written to a handed-out writer goes after what the destination already holds |
| FileOrStdoutArg.IsStdout | src/file_or_stdout.rs:47-49 | holds exactly when the destination is standard output, and then the file name is `"-"` |
| FileOrStdoutArg.IsFile | src/file_or_stdout.rs:51-54 | holds exactly when the destination is a path; it is always the opposite of `IsStdout` |
| FileOrStdoutArg.Filename | src/file_or_stdout.rs:57-62 | `"-"` for standard output and the path otherwise; classifying a path name again gives back the destination |
| FileOrStdoutArg.FromStr | src/file_or_stdout.rs:133-139 | never fails; stores `Dest::from_str` of the token and the given mode; it is standard output exactly for `"-"`, a file for every other token, and its file name is the token |
| FileOrStdoutArg.FilenameRoundTrip | src/file_or_stdout.rs:142-153 | the file name of a parsed token is that token, and parsing that file name again gives the same value |
| FileOrStdoutArg.IntoWriter | src/file_or_stdout.rs:86-88 | delegates to `into_writer_with_mode` with the value's own mode, with the same outcomes for standard output, refused paths, `Truncate` and `Append` |
| FileOrStdinArg.IntoInner | src/file_or_stdin.rs:76-78 | gives back exactly the value the wrapper was built from |
| FileOrStdinArg.Deref | src/file_or_stdin.rs:99-105 | gives the same value as `into_inner` |
| FileOrStdinArg.FromStr | src/file_or_stdin.rs:53-71 | For `"-"` with the flag set: `StdInRepeatedUse`, with no read and no parse. For `"-"` with the flag clear: the flag is set, all of standard input is read, and its `trim_end` is parsed. Any other token is a path: the whole file is parsed untrimmed and the flag is untouched. An unreadable file gives its I/O error without parsing; a parse failure gives `FromStr(message)` |
| MaybeStdinArg.IntoInner | src/maybe_stdin.rs:62-64 | gives back exactly the parsed value, keeping the recorded source |
| MaybeStdinArg.Deref | src/maybe_stdin.rs:85-91 | gives the same value as `into_inner` |
| MaybeStdinArg.FromStr | src/maybe_stdin.rs:42-57 | the stored source is `Source::from_str` of the token. A non-`"-"` token is itself parsed, untrimmed, with no I/O and no state change. `"-"` reads all of standard input and parses its `trim_end`, without checking or setting the flag. A parse failure gives `FromStr(message)` |
| MaybeStdinArg.FromStrGuarded | src/maybe_stdin.rs:42-57 | the same results as `FromStr`, except that `"-"` goes through `get_value`: a second claim gives `StdInRepeatedUse` and reads nothing, and `Valid` and `SingleRead` are kept |
| RustStd.TrimEnd | src/maybe_stdin.rs:49 | the result is a prefix of the input; everything removed is whitespace; the result does not end in whitespace |
| RustStd.TrimEndUnique | src/file_or_stdin.rs:63 | those three properties determine the trimmed string uniquely |
| RustStd.TrimEndAppendWhitespace | tests/tests.rs:46-54 | appending whitespace does not change the trimmed string, so `"2\n"` trims like `"2"` |
| RustStd.TrimEndIdempotent | src/maybe_stdin.rs:49 | trimming twice equals trimming once |
| RustStd.TrimEndKeepsLeading | src/maybe_stdin.rs:49 | every character up to the last non-whitespace one is kept, leading whitespace included |
| RustStd.ParseString | src/file_or_stdin.rs:36 | `String::from_str` (the default content type) returns its input and never fails |
| RustStd.ParseU32 | tests/tests.rs:36-54 | empty input is exactly the empty-string error; a first character that is neither `+` nor a digit is an invalid digit; a parsed value is below 2^32 |
| RustStd.Accumulate | tests/tests.rs:36-54 | the digit loop returns a value below 2^32, or the invalid-digit or overflow error |
| RustStd.DecimalFront | tests/tests.rs:36-54 | a digit string's value is its first digit times a power of ten plus the value of the rest |
| RustStd.AccumulateCorrect | tests/tests.rs:36-54 | the digit loop succeeds exactly when all characters are digits and the accumulated value fits in a `u32`, and it returns that value |
| RustStd.ParseU32Correct | tests/tests.rs:36-54 | `u32::from_str` accepts exactly an optional `+` followed by one or more digits whose value is below 2^32, and returns that value |
| Scenarios.PositionalArgFromStdin | tests/tests.rs:16-24 | a `MaybeStdin<String>` argument `"-"` holds the piped text without its trailing whitespace |
| Scenarios.OptionalArgFromStdin | tests/tests.rs:46-54 | piped digits followed by any whitespace give a `u32` argument the digits' value |
| Scenarios.FileThenStdin | tests/tests.rs:67-84 | through `MaybeStdin::from_str` as written, with a `String` then a `u32` argument: `["FIRST", digits]` gives the literal and the digits' value; `["FIRST", "-"]` with the digits and any trailing whitespace piped in gives the literal and the same value from standard input |
| Scenarios.StdinTwice | tests/tests.rs:86-95 | `["-", "-"]` with guarded reads: the first gets the piped text and the second is refused with `StdInRepeatedUse` |
| Scenarios.StdinTwiceAsWritten | src/maybe_stdin.rs:45-51 | `["-", "-"]` through `MaybeStdin::from_str` as written, in a process that has not touched standard input: the second argument parses the drained stream and fails with the empty-string error, not `StdInRepeatedUse`; standard input is read twice, the flag is never set, and `SingleRead` no longer holds |
| Scenarios.FileOrStdinThenReader | src/file_or_stdin.rs:56-59 | the flag is shared by all wrappers: after a `FileOrStdin` claims standard input, `into_reader` on `Stdin` is refused |
| Scenarios.LeadingWhitespace | src/maybe_stdin.rs:49 | piped text that starts with whitespace keeps it after trimming, so a `u32` argument fails with the invalid-digit error |
| Scenarios.FileNotTrimmed | src/file_or_stdin.rs:62-69 | a file holding `"42\n"` fails to parse as `u32` with the invalid-digit error, because file contents are not trimmed, while the same text on standard input parses to 42 |
| Scenarios.TruncateRoundTrip | src/lib.rs:31-38 | writing `v` through a `Truncate` output and reading the file back through `FileOrStdin<String>` gives exactly `v`, whatever the file held |
| Scenarios.AppendRoundTrip | src/lib.rs:46-53 | writing `v` through an `Append` output gives the earlier contents followed by `v` |
| Scenarios.StdoutTwice | src/lib.rs:150 | standard output may be opened and written repeatedly; the writes appear in order |
| Scenarios.ResolveArguments | src/file_or_stdin.rs:53-71 | resolving any list of tokens left to right, in a process that has not touched standard input: the first `"-"` gets the piped text, every later `"-"` gets `StdInRepeatedUse`, every other token is read as a file; the flag ends set, and standard input is read once, exactly when some token is `"-"`; `Valid` and `SingleRead` are kept |

## Left out

- Real I/O is replaced by the `Process` object. Standard input is a string plus a flag saying whether reading it fails. The file system is a map plus a set of paths that cannot be opened. Files are text, so a file that is not UTF-8 is not modelled.
- The flag's atomic orderings and concurrency are left out. The load and the store are modelled as one sequential step, and no claim is made about concurrent callers.
- The tokio variants `into_async_writer` and `configure_tokio` are left out. They mirror the blocking ones.
- The sealed-trait mechanism is left out. `WriteMode` is a plain two-case datatype, and the type parameter `M` becomes a field of `FileOrStdout`.
- `Display` and `Debug` formatting, error message texts, `DerefMut`, and the private constructor `FileOrStdin::new` are left out. The datatype constructor plays the role of `FileOrStdin::new`.
- The clap integration, the example programs and the test fixtures are left out. The fixtures use `MaybeStdIn`, `contents()` and `is_stdin()`, which do not exist in src/.
- `T::from_str` is a function parameter `string -> Result<T, string>`, where the error string is the displayed message. Only `String` and `u32` are instantiated.
- ClapStdin.Process.Open: covers only the builders this library makes (write, create, and truncate or append). Other flag combinations of `OpenOptions::open`, such as write without truncate or append, are left out.
- ClapStdin.Process.Write: a writer always adds after the current end. With append this is exact. With truncate it is exact as long as no other handle writes the same file; file positions per handle are not modelled.
- ClapStdin.Process.IntoReader: returns a handle naming standard input or the file; reading through the handle later is the caller's business and is not modelled.

## Findings

| source | as written | input that shows it | evidently intended | confidence | as-written member | corrected member |
|---|---|---|---|---|---|---|
| src/maybe_stdin.rs:45-51 | `MaybeStdin::from_str` reads standard input for `"-"` without checking or setting `STDIN_HAS_BEEN_READ`, so a second `"-"` argument reads the drained stream | tokens `["-", "-"]` for `MaybeStdin<String>` and `MaybeStdin<u32>` with `"3"` piped in: the second gives `FromStr("cannot parse integer from empty string")`, while tests/tests.rs:86-95 expects `StdInRepeatedUse` | take standard input through `Source::get_value`, as `FileOrStdin` and `into_reader` do, so a second claim is refused before any read | medium, not executed | Scenarios.StdinTwiceAsWritten | MaybeStdinArg.FromStrGuarded |
