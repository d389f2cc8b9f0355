/** `MaybeStdin<T>` (src/maybe_stdin.rs): an argument whose value is the
    argument text itself, or, for `"-"`, the whole of standard input. */
module MaybeStdinArg {
  import opened RustStd
  import opened ClapStdin

  /** The parsed value and the source it was taken from. */
  datatype MaybeStdin<T> = MaybeStdin(source: Source, inner: T)

  /** `into_inner`: gives back the parsed value. */
  function IntoInner<T>(w: MaybeStdin<T>): (v: T)
    ensures MaybeStdin(w.source, v) == w
  {
    w.inner
  }

  /** `Deref`: the same value `into_inner` gives. */
  function Deref<T>(w: MaybeStdin<T>): (v: T)
    ensures v == IntoInner(w)
  {
    w.inner
  }

  /** The tail of `from_str`: a parse error becomes `StdinError::FromStr`
      with its message, a parsed value is stored with its source. */
  function Wrap<T>(source: Source, parsed: Result<T, string>): Result<MaybeStdin<T>, StdinError> {
    match parsed
    case Ok(v) => Ok(MaybeStdin(source, v))
    case Err(message) => Err(StdinError.FromStr(message))
  }

  /** `MaybeStdin::from_str` as the source has it. Any token other than
      `"-"` is itself parsed, untrimmed and without I/O. For `"-"` standard
      input is read whole and its `trim_end` parsed, WITHOUT consulting or
      setting the single-use flag: each such argument reads the stream again. */
  method FromStr<T>(p: Process, s: string, parse: string -> Result<T, string>)
    returns (r: Result<MaybeStdin<T>, StdinError>)
    modifies p`stdin, p`stdinReadable, p`stdinReads
    ensures r.Ok? ==> r.value.source == SourceFromStr(s).value
    ensures s != Sentinel ==> r == Wrap(Source.Arg(s), parse(s)) && unchanged(p)
    ensures s == Sentinel ==>
      && p.stdin == "" && p.stdinReadable && p.stdinReads == old(p.stdinReads) + 1
      && r == if old(p.stdinReadable) then Wrap(Source.Stdin, parse(TrimEnd(old(p.stdin))))
              else Err(StdIn(InvalidData))
  {
    var source := SourceFromStr(s).value;
    match source
    case Stdin =>
      var input := p.ReadStdinToString();
      r := match input
        case Err(e) => Err(StdIn(e))
        case Ok(text) => Wrap(source, parse(TrimEnd(text)));
    case Arg(value) =>
      r := Wrap(source, parse(value));
  }

  /** `MaybeStdin::from_str` with standard input taken through
      `Source::get_value`, so the single-use flag guards it as it guards
      every other reader: a second `"-"` is refused with `StdInRepeatedUse`
      and reads nothing. */
  method FromStrGuarded<T>(p: Process, s: string, parse: string -> Result<T, string>)
    returns (r: Result<MaybeStdin<T>, StdinError>)
    requires p.Valid()
    modifies p`stdinHasBeenRead, p`claims, p`stdin, p`stdinReadable, p`stdinReads
    ensures p.Valid() && (old(p.SingleRead()) ==> p.SingleRead())
    ensures r.Ok? ==> r.value.source == SourceFromStr(s).value
    ensures s != Sentinel ==> r == Wrap(Source.Arg(s), parse(s)) && unchanged(p)
    ensures s == Sentinel && old(p.stdinHasBeenRead) ==> r == Err(StdInRepeatedUse) && unchanged(p)
    ensures s == Sentinel && !old(p.stdinHasBeenRead) ==>
      && p.stdinHasBeenRead && p.stdin == "" && p.stdinReadable && p.stdinReads == old(p.stdinReads) + 1
      && r == if old(p.stdinReadable) then Wrap(Source.Stdin, parse(TrimEnd(old(p.stdin))))
              else Err(StdIn(InvalidData))
  {
    var source := SourceFromStr(s).value;
    var content := p.GetValue(source);
    r := match content
      case Err(e) => Err(e)
      case Ok(text) => Wrap(source, parse(if source.Stdin? then TrimEnd(text) else text));
  }
}
