/** `FileOrStdin<T>` (src/file_or_stdin.rs): an argument whose value is
    parsed from the whole of standard input (for `"-"`) or from the whole of
    the file it names. */
module FileOrStdinArg {
  import opened RustStd
  import opened ClapStdin

  /** The parsed value. */
  datatype FileOrStdin<T> = FileOrStdin(inner: T)

  /** `into_inner`: gives back the value the wrapper was made from. */
  function IntoInner<T>(w: FileOrStdin<T>): (v: T)
    ensures FileOrStdin(v) == w
  {
    w.inner
  }

  /** `Deref`: the same value `into_inner` gives. */
  function Deref<T>(w: FileOrStdin<T>): (v: T)
    ensures v == IntoInner(w)
  {
    w.inner
  }

  /** The tail of `from_str`: a parse error becomes `StdinError::FromStr`
      with its message, a parsed value is wrapped. */
  function Wrap<T>(parsed: Result<T, string>): Result<FileOrStdin<T>, StdinError> {
    match parsed
    case Ok(v) => Ok(FileOrStdin(v))
    case Err(message) => Err(StdinError.FromStr(message))
  }

  /** `FileOrStdin::from_str`. For `"-"`: refused with `StdInRepeatedUse`
      and no read if standard input was claimed before; otherwise the flag is
      set, standard input is read whole and its `trim_end` parsed. For any
      other token: the file is read whole, its untrimmed contents parsed, and
      the flag is left alone; a file that cannot be read is an I/O error and
      nothing is parsed. */
  method FromStr<T>(p: Process, s: string, parse: string -> Result<T, string>)
    returns (r: Result<FileOrStdin<T>, StdinError>)
    requires p.Valid()
    modifies p`stdinHasBeenRead, p`claims, p`stdin, p`stdinReadable, p`stdinReads
    ensures p.Valid() && (old(p.SingleRead()) ==> p.SingleRead())
    ensures s == Sentinel && old(p.stdinHasBeenRead) ==> r == Err(StdInRepeatedUse) && unchanged(p)
    ensures s == Sentinel && !old(p.stdinHasBeenRead) ==>
      && p.stdinHasBeenRead && p.claims == old(p.claims) + 1
      && p.stdin == "" && p.stdinReadable && p.stdinReads == old(p.stdinReads) + 1
      && r == if old(p.stdinReadable) then Wrap(parse(TrimEnd(old(p.stdin)))) else Err(StdIn(InvalidData))
    ensures s != Sentinel ==> unchanged(p)
    ensures s != Sentinel ==>
      r == match p.ReadFile(s)
        case Err(e) => Err(StdIn(e))
        case Ok(contents) => Wrap(parse(contents))
  {
    match s
    case "-" =>
      var claimed := p.ClaimStdin();
      if !claimed {
        return Err(StdInRepeatedUse);
      }
      var input := p.ReadStdinToString();
      r := match input
        case Err(e) => Err(StdIn(e))
        case Ok(text) => Wrap(parse(TrimEnd(text)));
    case filepath =>
      r := match p.ReadFile(filepath)
        case Err(e) => Err(StdIn(e))
        case Ok(contents) => Wrap(parse(contents));
  }
}
