/** The pieces of Rust's standard library that the argument wrappers call:
    `Result`, `char::is_whitespace`, `str::trim_end`, and the two `FromStr`
    instances the wrappers are used with (`String` and `u32`). */
module RustStd {

  datatype Result<T, E> = Ok(value: T) | Err(error: E) {
    predicate IsFailure() { Err? }

    function PropagateFailure<U>(): Result<U, E>
      requires Err?
    {
      Err(error)
    }

    function Extract(): T
      requires Ok?
    {
      value
    }
  }

  // ---------------------------------------------------------------------------
  // Whitespace and trim_end
  // ---------------------------------------------------------------------------

  /** `char::is_whitespace`: the characters with the Unicode White_Space property. */
  predicate IsWhitespace(c: char) {
    || ('\t' <= c <= '\r')
    || c == ' '
    || c == '\U{85}'
    || c == '\U{A0}'
    || c == '\U{1680}'
    || ('\U{2000}' <= c <= '\U{200A}')
    || c == '\U{2028}'
    || c == '\U{2029}'
    || c == '\U{202F}'
    || c == '\U{205F}'
    || c == '\U{3000}'
  }

  predicate AllWhitespace(s: string) {
    forall i :: 0 <= i < |s| ==> IsWhitespace(s[i])
  }

  /** `str::trim_end`: the longest prefix of `s` that does not end in
      whitespace; everything it drops is whitespace, and leading whitespace
      is kept. */
  function TrimEnd(s: string): (r: string)
    ensures |r| <= |s| && r == s[..|r|]
    ensures AllWhitespace(s[|r|..])
    ensures r == [] || !IsWhitespace(r[|r| - 1])
  {
    if |s| > 0 && IsWhitespace(s[|s| - 1]) then TrimEnd(s[..|s| - 1]) else s
  }

  /** The three properties of TrimEnd's contract single out its result:
      any prefix with a whitespace-only remainder that does not itself end in
      whitespace is the trimmed string. */
  lemma TrimEndUnique(s: string, t: string)
    requires |t| <= |s| && t == s[..|t|]
    requires AllWhitespace(s[|t|..])
    requires t == [] || !IsWhitespace(t[|t| - 1])
    ensures t == TrimEnd(s)
  {
  }

  /** Trailing whitespace makes no difference to the trimmed string:
      `"2\n"` and `"2"` trim to the same text. */
  lemma TrimEndAppendWhitespace(s: string, w: string)
    requires AllWhitespace(w)
    ensures TrimEnd(s + w) == TrimEnd(s)
  {
    var r := TrimEnd(s);
    var sw := s + w;
    assert sw[..|r|] == r;
    assert sw[|r|..] == s[|r|..] + w;
    TrimEndUnique(sw, r);
  }

  /** Trimming twice is trimming once. */
  lemma TrimEndIdempotent(s: string)
    ensures TrimEnd(TrimEnd(s)) == TrimEnd(s)
  {
  }

  /** Leading whitespace survives trimming whenever the string has any
      non-whitespace character at all. */
  lemma TrimEndKeepsLeading(s: string, i: nat)
    requires i < |s| && !IsWhitespace(s[i])
    ensures i < |TrimEnd(s)| && TrimEnd(s)[..i + 1] == s[..i + 1]
  {
  }

  // ---------------------------------------------------------------------------
  // FromStr instances
  // ---------------------------------------------------------------------------

  /** `String::from_str`: never fails and returns its input. */
  function ParseString(s: string): (r: Result<string, string>)
    ensures r == Ok(s)
  {
    Ok(s)
  }

  /** One more than the largest `u32`. */
  const U32Limit: nat := 0x1_0000_0000

  /** The `Display` texts of the `ParseIntError` kinds `u32::from_str` can return. */
  const EmptyMessage: string := "cannot parse integer from empty string"
  const InvalidDigitMessage: string := "invalid digit found in string"
  const OverflowMessage: string := "number too large to fit in target type"

  predicate IsDigit(c: char) {
    '0' <= c <= '9'
  }

  predicate AllDigits(s: string) {
    forall i :: 0 <= i < |s| ==> IsDigit(s[i])
  }

  function DigitValue(c: char): nat
    requires IsDigit(c)
  {
    c as int - '0' as int
  }

  function Pow10(n: nat): (r: nat)
    ensures r >= 1
  {
    if n == 0 then 1 else 10 * Pow10(n - 1)
  }

  /** Reference meaning of a digit string: its positional value, the last
      digit being the least significant. */
  function Decimal(ds: string): nat
    requires AllDigits(ds)
  {
    if ds == [] then 0 else 10 * Decimal(ds[..|ds| - 1]) + DigitValue(ds[|ds| - 1])
  }

  /** The digits `u32::from_str` reads: a single leading `+` is skipped. */
  function Unsigned(s: string): string {
    if |s| > 0 && s[0] == '+' then s[1..] else s
  }

  /** `u32::from_str` (`from_str_radix(s, 10)`): an empty string is refused,
      a lone sign is an invalid digit, a leading `+` is skipped, and the
      digits are then read left to right, the first non-digit or the first
      step past the `u32` range deciding the error. */
  function ParseU32(s: string): (r: Result<nat, string>)
    ensures r == Err(EmptyMessage) <==> s == []
    ensures r.Ok? ==> r.value < U32Limit
    ensures |s| > 0 && s[0] != '+' && !IsDigit(s[0]) ==> r == Err(InvalidDigitMessage)
  {
    if s == [] then Err(EmptyMessage)
    else if s == "+" || s == "-" then Err(InvalidDigitMessage)
    else Accumulate(Unsigned(s), 0)
  }

  /** The digit loop of `from_str_radix`, with the value read so far in `acc`. */
  function Accumulate(ds: string, acc: nat): (r: Result<nat, string>)
    requires acc < U32Limit
    ensures r.Ok? ==> r.value < U32Limit
    ensures r.Err? ==> r.error == InvalidDigitMessage || r.error == OverflowMessage
  {
    if ds == [] then Ok(acc)
    else if !IsDigit(ds[0]) then Err(InvalidDigitMessage)
    else if 10 * acc + DigitValue(ds[0]) >= U32Limit then Err(OverflowMessage)
    else Accumulate(ds[1..], 10 * acc + DigitValue(ds[0]))
  }

  /** Splitting a digit string after its most significant digit. */
  lemma {:induction false} DecimalFront(ds: string)
    requires AllDigits(ds) && |ds| > 0
    ensures Decimal(ds) == DigitValue(ds[0]) * Pow10(|ds| - 1) + Decimal(ds[1..])
  {
    if |ds| == 1 {
      assert ds[1..] == [] && ds[..0] == [];
    } else {
      var init := ds[..|ds| - 1];
      var rest := ds[1..];
      DecimalFront(init);
      assert init[1..] == rest[..|rest| - 1];
      assert rest[|rest| - 1] == ds[|ds| - 1];
      var d := DigitValue(ds[0]);
      calc {
        Decimal(ds);
        10 * Decimal(init) + DigitValue(ds[|ds| - 1]);
        10 * (d * Pow10(|ds| - 2) + Decimal(init[1..])) + DigitValue(ds[|ds| - 1]);
        { assert 10 * (d * Pow10(|ds| - 2)) == d * (10 * Pow10(|ds| - 2)); }
        d * Pow10(|ds| - 1) + (10 * Decimal(rest[..|rest| - 1]) + DigitValue(rest[|rest| - 1]));
        d * Pow10(|ds| - 1) + Decimal(rest);
      }
    }
  }

  /** Reading one more digit `d` after the value `acc`: the value of `acc`
      followed by `d` and then `rest` is that of `10 * acc + d` followed by
      `rest`. */
  lemma ShiftDigit(acc: nat, d: nat, p: nat, x: nat)
    ensures acc * (10 * p) + (d * p + x) == (10 * acc + d) * p + x
  {
  }

  lemma AllDigitsTail(ds: string)
    requires |ds| > 0 && IsDigit(ds[0])
    ensures AllDigits(ds) <==> AllDigits(ds[1..])
  {
  }

  /** The digit loop succeeds exactly when every character is a digit and the
      value `acc` followed by those digits fits in a `u32`; it then returns
      that value. */
  lemma {:induction false} AccumulateCorrect(ds: string, acc: nat)
    requires acc < U32Limit
    ensures Accumulate(ds, acc).Ok? <==> AllDigits(ds) && acc * Pow10(|ds|) + Decimal(ds) < U32Limit
    ensures Accumulate(ds, acc).Ok? ==> Accumulate(ds, acc).value == acc * Pow10(|ds|) + Decimal(ds)
  {
    if ds != [] && IsDigit(ds[0]) {
      var d := DigitValue(ds[0]);
      var next := 10 * acc + d;
      var rest := ds[1..];
      AllDigitsTail(ds);
      if AllDigits(ds) {
        DecimalFront(ds);
        ShiftDigit(acc, d, Pow10(|rest|), Decimal(rest));
        assert acc * Pow10(|ds|) + Decimal(ds) == next * Pow10(|rest|) + Decimal(rest);
        assert next * Pow10(|rest|) >= next;
      }
      if next < U32Limit {
        AccumulateCorrect(rest, next);
      }
    }
  }

  /** `u32::from_str` accepts exactly an optional `+` followed by one or more
      decimal digits whose value is below 2^32, and returns that value. */
  lemma ParseU32Correct(s: string)
    ensures ParseU32(s).Ok? <==>
      |Unsigned(s)| > 0 && AllDigits(Unsigned(s)) && Decimal(Unsigned(s)) < U32Limit
    ensures ParseU32(s).Ok? ==> ParseU32(s).value == Decimal(Unsigned(s))
  {
    AccumulateCorrect(Unsigned(s), 0);
    if s == "-" {
      assert !IsDigit(Unsigned(s)[0]);
    }
  }
}
