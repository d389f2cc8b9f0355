/** `FileOrStdout<M>` (src/file_or_stdout.rs): an output argument naming
    either standard output or a file, together with the write mode `M` the
    file is opened with. */
module FileOrStdoutArg {
  import opened RustStd
  import opened ClapStdin

  /** The destination and the mode; the mode is the type parameter `M` of the
      source, `Truncate` unless another is named. */
  datatype FileOrStdout = FileOrStdout(dest: Dest, mode: WriteMode)

  /** `is_stdout`: the argument names standard output. */
  function IsStdout(f: FileOrStdout): (b: bool)
    ensures b <==> f.dest == Dest.Stdout
    ensures b ==> Filename(f) == Sentinel
  {
    f.dest.Stdout?
  }

  /** `is_file`: the argument names a file path; exactly one of `IsStdout`
      and `IsFile` holds. */
  function IsFile(f: FileOrStdout): (b: bool)
    ensures b <==> f.dest.Arg?
    ensures b != IsStdout(f)
  {
    !IsStdout(f)
  }

  /** `filename`: `"-"` for standard output, the path otherwise; classifying
      the name again gives back the destination. */
  function Filename(f: FileOrStdout): (name: string)
    ensures f.dest.Stdout? ==> name == Sentinel
    ensures f.dest.Arg? ==> name == f.dest.path
    ensures f.dest.Arg? && f.dest.path != Sentinel ==> DestFromStr(name) == Ok(f.dest)
  {
    match f.dest
    case Stdout => "-"
    case Arg(path) => path
  }

  /** `FileOrStdout::from_str`: never fails, stores `Dest::from_str(s)`, and
      its file name is the token it was made from. */
  function FromStr(s: string, mode: WriteMode): (r: Result<FileOrStdout, IoError>)
    ensures r.Ok? && r.value.dest == DestFromStr(s).value && r.value.mode == mode
    ensures IsStdout(r.value) <==> s == Sentinel
    ensures IsFile(r.value) <==> s != Sentinel
    ensures Filename(r.value) == s
  {
    Ok(FileOrStdout(DestFromStr(s).value, mode))
  }

  /** Token round trip: the file name of a parsed token is the token, and
      parsing a parsed value's file name gives back that value. */
  lemma {:induction false} FilenameRoundTrip(s: string, mode: WriteMode)
    ensures Filename(FromStr(s, mode).value) == s
    ensures FromStr(Filename(FromStr(s, mode).value), mode) == FromStr(s, mode)
  {
  }

  /** `into_writer`: `into_writer_with_mode` with the argument's own mode. */
  method IntoWriter(p: Process, f: FileOrStdout) returns (r: Result<Writer, IoError>)
    modifies p`files
    ensures IsStdout(f) ==> r == Ok(StdoutWriter) && p.files == old(p.files)
    ensures IsFile(f) && f.dest.path in old(p.locked) ==>
      r == Err(PermissionDenied(f.dest.path)) && p.files == old(p.files)
    ensures IsFile(f) && f.dest.path !in old(p.locked) ==>
      && r == Ok(FileWriter(Filename(f)))
      && p.files == old(p.files)[Filename(f) := if f.mode == Truncate then "" else ContentsOf(old(p.files), Filename(f))]
  {
    r := p.IntoWriterWithMode(f.dest, f.mode);
  }
}
