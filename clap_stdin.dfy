/** The shared part of the library (src/lib.rs): the argument tokens that
    select standard input or output, the write modes, the error type, and
    the process environment with its single-use standard-input flag. */
module ClapStdin {
  import opened RustStd

  /** The one token that selects standard input (or standard output). */
  const Sentinel: string := "-"

  /** The `io::Error` kinds the wrappers can meet. */
  datatype IoError =
    | NotFound(path: string)
    | PermissionDenied(path: string)
    | InvalidInput
    | InvalidData

  /** `StdinError`: standard input claimed twice, an I/O failure, or the
      content type's parse error with its displayed message. */
  datatype StdinError =
    | StdInRepeatedUse
    | StdIn(io: IoError)
    | FromStr(message: string)

  // ---------------------------------------------------------------------------
  // Tokens
  // ---------------------------------------------------------------------------

  /** Where an input value comes from: standard input, or the argument text
      itself (a literal or a file path, depending on the wrapper). */
  datatype Source = Stdin | Arg(value: string)

  /** Where output goes: standard output or a file path. */
  datatype Dest = Stdout | Arg(path: string)

  /** `Source::from_str`: total; the sentinel selects standard input and any
      other token is kept verbatim. */
  function SourceFromStr(s: string): (r: Result<Source, StdinError>)
    ensures r.Ok?
    ensures r.value.Stdin? <==> s == Sentinel
    ensures r.value.Arg? ==> r.value.value == s
  {
    match s
    case "-" => Ok(Source.Stdin)
    case _ => Ok(Source.Arg(s))
  }

  /** `Dest::from_str`: total; the sentinel selects standard output and any
      other token is kept verbatim as a path. */
  function DestFromStr(s: string): (r: Result<Dest, IoError>)
    ensures r.Ok?
    ensures r.value.Stdout? <==> s == Sentinel
    ensures r.value.Arg? ==> r.value.path == s
  {
    match s
    case "-" => Ok(Dest.Stdout)
    case _ => Ok(Dest.Arg(s))
  }

  /** Two tokens that classify alike are the same token, for both sides. */
  lemma FromStrInjective(s: string, t: string)
    ensures SourceFromStr(s) == SourceFromStr(t) ==> s == t
    ensures DestFromStr(s) == DestFromStr(t) ==> s == t
  {
  }

  // ---------------------------------------------------------------------------
  // Write modes and the open-options builder
  // ---------------------------------------------------------------------------

  /** How a file destination is opened. */
  datatype WriteMode = Truncate | Append

  /** The mode a destination gets when none is named. */
  const DefaultMode: WriteMode := Truncate

  /** `std::fs::OpenOptions`, the builder `Dest::into_writer_with_mode` sets
      up step by step. */
  class OpenOptions {
    var create: bool
    var write: bool
    var truncate: bool
    var append: bool

    constructor ()
      ensures !create && !write && !truncate && !append
    {
      create, write, truncate, append := false, false, false, false;
    }

    method SetCreate(v: bool)
      modifies this`create
      ensures create == v
    {
      create := v;
    }

    method SetWrite(v: bool)
      modifies this`write
      ensures write == v
    {
      write := v;
    }

    method SetTruncate(v: bool)
      modifies this`truncate
      ensures truncate == v
    {
      truncate := v;
    }

    method SetAppend(v: bool)
      modifies this`append
      ensures append == v
    {
      append := v;
    }
  }

  /** `WriteMode::configure`: `Truncate` turns on truncation, `Append` turns
      on appending; nothing else in the builder changes. */
  method Configure(mode: WriteMode, opts: OpenOptions)
    modifies opts`truncate, opts`append
    ensures mode == Truncate ==> opts.truncate && opts.append == old(opts.append)
    ensures mode == Append ==> opts.append && opts.truncate == old(opts.truncate)
  {
    match mode
    case Truncate => opts.SetTruncate(true);
    case Append => opts.SetAppend(true);
  }

  // ---------------------------------------------------------------------------
  // The process environment
  // ---------------------------------------------------------------------------

  /** A stream handed back to the caller for reading. */
  datatype Reader = StdinReader | FileReader(path: string)

  /** A stream handed back to the caller for writing. */
  datatype Writer = StdoutWriter | FileWriter(path: string)

  /** The contents of `path` in the file map, empty when the file does not exist. */
  function ContentsOf(files: map<string, string>, path: string): string {
    if path in files then files[path] else ""
  }

  /** `fs::read_to_string` over a file map, which also decides whether
      `File::open` succeeds: a locked path is refused, a missing one is not
      found, and any other yields the whole file. */
  function ReadFileIn(files: map<string, string>, locked: set<string>, path: string): Result<string, IoError> {
    if path in locked then Err(PermissionDenied(path))
    else if path !in files then Err(NotFound(path))
    else Ok(files[path])
  }

  /** The process the wrappers run in: the process-wide flag
      `STDIN_HAS_BEEN_READ`, what is left on standard input, the file system
      as a map from paths to contents (plus the paths the process may not
      open), and what has been written to standard output. */
  class Process {
    /** `STDIN_HAS_BEEN_READ`: starts false, only ever stored true. */
    var stdinHasBeenRead: bool
    /** The text still to be read from standard input. */
    var stdin: string
    /** False when reading standard input fails (its bytes are not UTF-8). */
    var stdinReadable: bool
    var files: map<string, string>
    var locked: set<string>
    var stdout: string

    /** Successful claims of standard input through the flag. */
    ghost var claims: nat
    /** Whole-stream reads of standard input. */
    ghost var stdinReads: nat

    /** At most one successful claim per process, and the flag records it. */
    ghost predicate Valid()
      reads this
    {
      claims <= 1 && (claims == 1 <==> stdinHasBeenRead)
    }

    /** Standard input is never read without a claim, so it is read at most once. */
    ghost predicate SingleRead()
      reads this
    {
      stdinReads <= claims
    }

    constructor (input: string, readable: bool, files: map<string, string>, locked: set<string>)
      ensures Valid() && SingleRead()
      ensures !stdinHasBeenRead && claims == 0 && stdinReads == 0
      ensures stdin == input && stdinReadable == readable
      ensures this.files == files && this.locked == locked && stdout == ""
    {
      stdinHasBeenRead := false;
      stdin, stdinReadable := input, readable;
      this.files, this.locked := files, locked;
      stdout := "";
      claims, stdinReads := 0, 0;
    }

    /** `fs::read_to_string` in this process. */
    function ReadFile(path: string): Result<string, IoError>
      reads this
    {
      ReadFileIn(files, locked, path)
    }

    /** The load-then-store on `STDIN_HAS_BEEN_READ`: succeeds only if the flag
        was clear, and leaves it set either way. */
    method ClaimStdin() returns (claimed: bool)
      requires Valid()
      modifies this`stdinHasBeenRead, this`claims
      ensures Valid()
      ensures claimed == !old(stdinHasBeenRead)
      ensures stdinHasBeenRead
      ensures claims == old(claims) + (if claimed then 1 else 0)
    {
      if stdinHasBeenRead {
        return false;
      }
      stdinHasBeenRead := true;
      claims := claims + 1;
      claimed := true;
    }

    /** `io::stdin().lock().read_to_string(&mut input)`: drains the stream and
        returns all of it, or fails when it is not text. */
    method ReadStdinToString() returns (r: Result<string, IoError>)
      modifies this`stdin, this`stdinReadable, this`stdinReads
      ensures stdin == "" && stdinReadable
      ensures stdinReads == old(stdinReads) + 1
      ensures r == if old(stdinReadable) then Ok(old(stdin)) else Err(InvalidData)
    {
      r := if stdinReadable then Ok(stdin) else Err(InvalidData);
      stdin, stdinReadable := "", true;
      stdinReads := stdinReads + 1;
    }

    /** `Source::get_value`: an argument is its own value; standard input is
        claimed first and then read whole, and a refused claim reads nothing. */
    method GetValue(src: Source) returns (r: Result<string, StdinError>)
      requires Valid()
      modifies this`stdinHasBeenRead, this`claims, this`stdin, this`stdinReadable, this`stdinReads
      ensures Valid() && (old(SingleRead()) ==> SingleRead())
      ensures src.Arg? ==> r == Ok(src.value) && unchanged(this)
      ensures src.Stdin? && old(stdinHasBeenRead) ==> r == Err(StdInRepeatedUse) && unchanged(this)
      ensures src.Stdin? && !old(stdinHasBeenRead) ==>
        && stdinHasBeenRead && claims == old(claims) + 1
        && stdin == "" && stdinReadable && stdinReads == old(stdinReads) + 1
        && r == if old(stdinReadable) then Ok(old(stdin)) else Err(StdIn(InvalidData))
    {
      match src
      case Stdin =>
        var claimed := ClaimStdin();
        if !claimed {
          return Err(StdInRepeatedUse);
        }
        var input := ReadStdinToString();
        r := match input
          case Ok(text) => Ok(text)
          case Err(e) => Err(StdIn(e));
      case Arg(value) =>
        r := Ok(value);
    }

    /** `Source::into_reader`: standard input is claimed but not read; a path
        is opened for reading, failing as `File::open` does, without touching
        the flag. */
    method IntoReader(src: Source) returns (r: Result<Reader, StdinError>)
      requires Valid()
      modifies this`stdinHasBeenRead, this`claims
      ensures Valid() && (old(SingleRead()) ==> SingleRead())
      ensures stdin == old(stdin) && stdinReads == old(stdinReads)
      ensures src.Stdin? && old(stdinHasBeenRead) ==> r == Err(StdInRepeatedUse) && unchanged(this)
      ensures src.Stdin? && !old(stdinHasBeenRead) ==>
        r == Ok(StdinReader) && stdinHasBeenRead && claims == old(claims) + 1
      ensures src.Arg? ==> unchanged(this)
      ensures src.Arg? ==> (r.Ok? <==> src.value in files && src.value !in locked)
      ensures src.Arg? && r.Ok? ==> r.value == FileReader(src.value)
      ensures src.Arg? && r.Err? ==> r.error == StdIn(ReadFile(src.value).error)
    {
      match src
      case Stdin =>
        var claimed := ClaimStdin();
        if !claimed {
          return Err(StdInRepeatedUse);
        }
        r := Ok(StdinReader);
      case Arg(filepath) =>
        r := match ReadFile(filepath)
          case Ok(_) => Ok(FileReader(filepath))
          case Err(e) => Err(StdIn(e));
    }

    /** `OpenOptions::open` for the builders this library makes (write access,
        created if missing, and exactly one of truncate and append asked
        for): truncation empties the file, appending keeps its contents. */
    method Open(opts: OpenOptions, path: string) returns (r: Result<Writer, IoError>)
      requires opts.write && opts.create && (opts.truncate || opts.append)
      modifies this`files
      ensures path in old(locked) ==> r == Err(PermissionDenied(path)) && files == old(files)
      ensures path !in old(locked) && opts.truncate && opts.append ==> r == Err(InvalidInput) && files == old(files)
      ensures path !in old(locked) && opts.truncate != opts.append ==>
        && r == Ok(FileWriter(path))
        && files == old(files)[path := if opts.truncate then "" else ContentsOf(old(files), path)]
    {
      if path in locked {
        return Err(PermissionDenied(path));
      }
      if opts.truncate && opts.append {
        return Err(InvalidInput);
      }
      files := files[path := if opts.truncate then "" else ContentsOf(files, path)];
      r := Ok(FileWriter(path));
    }

    /** `Dest::into_writer_with_mode`: standard output always succeeds; a path
        is opened with create and write set and then the mode applied, so
        `Truncate` leaves the file empty and `Append` keeps what it held. */
    method IntoWriterWithMode(dest: Dest, mode: WriteMode) returns (r: Result<Writer, IoError>)
      modifies this`files
      ensures dest.Stdout? ==> r == Ok(StdoutWriter) && files == old(files)
      ensures dest.Arg? && dest.path in old(locked) ==>
        r == Err(PermissionDenied(dest.path)) && files == old(files)
      ensures dest.Arg? && dest.path !in old(locked) ==>
        && r == Ok(FileWriter(dest.path))
        && files == old(files)[dest.path := if mode == Truncate then "" else ContentsOf(old(files), dest.path)]
    {
      match dest
      case Stdout =>
        r := Ok(StdoutWriter);
      case Arg(filepath) =>
        var opts := new OpenOptions();
        opts.SetCreate(true);
        opts.SetWrite(true);
        Configure(mode, opts);
        r := Open(opts, filepath);
    }

    /** `Write::write_all` on a writer this library handed out: the text goes
        after what the destination already holds. */
    method Write(w: Writer, data: string)
      modifies this`stdout, this`files
      ensures w.StdoutWriter? ==> stdout == old(stdout) + data && files == old(files)
      ensures w.FileWriter? ==>
        stdout == old(stdout) && files == old(files)[w.path := ContentsOf(old(files), w.path) + data]
    {
      match w
      case StdoutWriter =>
        stdout := stdout + data;
      case FileWriter(path) =>
        files := files[path := ContentsOf(files, path) + data];
    }
  }
}
