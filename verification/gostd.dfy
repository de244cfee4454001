/** The pieces of Go's standard library whose exact behaviour the handlers
    depend on: `strconv.Atoi` / `strconv.Itoa` on a 64-bit platform,
    `strings.HasPrefix` / `strings.TrimPrefix` / `strings.Contains`,
    `strings.ToLower` as far as it can matter here, and `filepath.Ext` with
    '/' as the path separator. Strings are sequences of Unicode scalar
    values (Go runes). */
module GoStd {
  import opened Wrappers

  const MinInt64: int := -0x8000_0000_0000_0000
  const MaxInt64: int := 0x7FFF_FFFF_FFFF_FFFF

  predicate InInt64(n: int) { MinInt64 <= n <= MaxInt64 }

  // ---------------------------------------------------------------------
  // strconv

  predicate IsDigit(c: char) { '0' <= c <= '9' }

  predicate IsSign(c: char) { c == '+' || c == '-' }

  predicate AllDigits(s: string) { forall i :: 0 <= i < |s| ==> IsDigit(s[i]) }

  function DigitValue(c: char): nat
    requires IsDigit(c)
  {
    (c as int) - ('0' as int)
  }

  function DigitChar(d: nat): (c: char)
    requires d < 10
    ensures IsDigit(c) && DigitValue(c) == d
  {
    ('0' as int + d) as char
  }

  /** Value of a decimal digit string, most significant digit first. */
  function DecimalValue(s: string): nat
    requires AllDigits(s)
  {
    if |s| == 0 then 0 else DecimalValue(s[..|s| - 1]) * 10 + DigitValue(s[|s| - 1])
  }

  /** `strconv.Atoi` with a 64-bit `int`: an optional '+' or '-', then one or
      more ASCII digits (leading zeros allowed, no underscores, no spaces),
      and the value must fit in 64 bits; anything else is an error. */
  function Atoi(s: string): (r: Option<int>)
    ensures r.Some? ==> InInt64(r.value)
    ensures r.Some? ==> |s| > 0 && forall i :: 0 <= i < |s| && !(i == 0 && IsSign(s[0])) ==> IsDigit(s[i])
    ensures r.Some? && s[0] == '-' ==> r.value <= 0
    ensures r.Some? && s[0] != '-' ==> r.value >= 0
  {
    if |s| > 0 && IsSign(s[0]) then
      var digits := s[1..];
      if |digits| == 0 || !AllDigits(digits) then None
      else
        var n: int := if s[0] == '-' then 0 - DecimalValue(digits) else DecimalValue(digits);
        if InInt64(n) then Some(n) else None
    else if |s| == 0 || !AllDigits(s) then None
    else
      var n := DecimalValue(s);
      if InInt64(n) then Some(n) else None
  }

  /** Decimal digits of a natural number, without leading zeros. */
  function Digits(n: nat): (s: string)
    ensures |s| > 0 && AllDigits(s)
    ensures s[0] == '0' ==> s == "0"
  {
    if n < 10 then [DigitChar(n)] else Digits(n / 10) + [DigitChar(n % 10)]
  }

  /** `strconv.Itoa`: the canonical decimal rendering of an integer. */
  function Itoa(n: int): (s: string)
    ensures |s| > 0 && (s[0] == '-' <==> n < 0)
    ensures var d := if n < 0 then s[1..] else s;
      |d| > 0 && AllDigits(d) && (d[0] == '0' ==> d == "0")
  {
    if n < 0 then "-" + Digits(-n) else Digits(n)
  }

  lemma {:induction false} DecimalValueOfDigits(n: nat)
    ensures DecimalValue(Digits(n)) == n
  {
    if n >= 10 {
      var s := Digits(n);
      assert s[..|s| - 1] == Digits(n / 10);
      DecimalValueOfDigits(n / 10);
    }
  }

  /** Parsing the rendering of any 64-bit integer gives that integer back. */
  lemma AtoiItoa(n: int)
    requires InInt64(n)
    ensures Atoi(Itoa(n)) == Some(n)
  {
    var s := Itoa(n);
    if n < 0 {
      assert s[1..] == Digits(-n);
      DecimalValueOfDigits(-n);
    } else {
      DecimalValueOfDigits(n);
    }
  }

  /** Atoi accepts a leading '+' and leading zeros, so distinct path
      strings can name the same id. */
  lemma AtoiAcceptsNonCanonicalForms()
    ensures Atoi("01") == Some(1)
    ensures Atoi("+1") == Some(1)
    ensures Atoi("-0") == Some(0)
    ensures Atoi("") == None
    ensures Atoi("1_0") == None
    ensures Atoi(" 1") == None
  {
    assert "01"[..1] == "0" && "0"[..0] == "";
    assert "+1"[1..] == "1";
    assert "-0"[1..] == "0";
    assert !IsDigit("1_0"[1]);
    assert !IsDigit(" 1"[0]);
  }

  /** The syntax `Atoi` accepts, whatever the magnitude. */
  predicate AtoiSyntax(s: string) {
    |Unsigned(s)| > 0 && AllDigits(Unsigned(s))
  }

  /** The string without its one optional leading sign. */
  function Unsigned(s: string): (r: string)
    ensures |s| > 0 && IsSign(s[0]) ==> r == s[1..]
    ensures !(|s| > 0 && IsSign(s[0])) ==> r == s
  {
    if |s| > 0 && IsSign(s[0]) then s[1..] else s
  }

  const MaxUint64: int := 0xFFFF_FFFF_FFFF_FFFF

  /** The longest prefix of `s` made of digits. */
  function DigitRun(s: string): (r: string)
    ensures |r| <= |s| && r == s[..|r|] && AllDigits(r)
    ensures |r| < |s| ==> !IsDigit(s[|r|])
    ensures |r| == |s| <==> AllDigits(s)
  {
    if |s| == 0 || !IsDigit(s[0]) then "" else [s[0]] + DigitRun(s[1..])
  }

  /** The text of the `*strconv.NumError` a failed `Atoi` returns. Go reads
      the digits after the sign left to right into an unsigned 64-bit
      accumulator, so a range error wins over a later stray character once
      the digits read so far exceed 2^64 - 1; a well-formed string outside
      the 64-bit signed range is a range error too; anything else is a
      syntax error. */
  function AtoiError(s: string): (r: string)
    ensures Atoi(s).None? ==>
      r == "strconv.Atoi: parsing " + Quote(s) + ": "
        + (if ParseInt(s).RangeErr? then "value out of range" else "invalid syntax")
  {
    AtoiAgreesWithParseInt(s);
    "strconv.Atoi: parsing " + Quote(s) + ": "
      + (if DecimalValue(DigitRun(Unsigned(s))) > MaxUint64 || AtoiSyntax(s) then "value out of range" else "invalid syntax")
  }

  /** Outcome of Go's `strconv.ParseInt` / `ParseUint` in base 10. */
  datatype Parsed = Parsed(value: int) | SyntaxErr | RangeErr

  /** The digit loop of `strconv.ParseUint`, from index `i` with the value
      `n` of the digits before it: a non-digit stops it with a syntax error,
      a step past 2^64 - 1 with a range error. */
  function ScanUint(s: string, i: nat, n: nat): (p: Parsed)
    requires i <= |s|
    ensures p.Parsed? ==> n <= p.value <= MaxUint64 || (i == |s| && p.value == n)
    decreases |s| - i
  {
    if i == |s| then Parsed(n)
    else if !IsDigit(s[i]) then SyntaxErr
    else
      var n1 := n * 10 + DigitValue(s[i]);
      if n1 > MaxUint64 then RangeErr else ScanUint(s, i + 1, n1)
  }

  /** `strconv.ParseInt(s, 10, 64)`, which `Atoi` falls back to for input
      of 19 bytes or more (shorter input cannot overflow, and its fast path
      fails exactly where this does, always with a syntax error). */
  function ParseInt(s: string): (p: Parsed)
    ensures p.Parsed? ==> InInt64(p.value)
  {
    if |s| == 0 then SyntaxErr
    else
      var d := Unsigned(s);
      var u := if |d| == 0 then SyntaxErr else ScanUint(d, 0, 0);
      match u
      case SyntaxErr => SyntaxErr
      case RangeErr => RangeErr
      case Parsed(v) =>
        if s[0] == '-' then (if v > MaxInt64 + 1 then RangeErr else Parsed(0 - v))
        else if v > MaxInt64 then RangeErr else Parsed(v)
  }

  /** Each digit read extends the value read so far. */
  lemma {:induction false} DecimalValueOfPrefix(s: string, i: nat)
    requires AllDigits(s) && i < |s|
    ensures DecimalValue(s[..i + 1]) == DecimalValue(s[..i]) * 10 + DigitValue(s[i])
  {
    assert s[..i + 1][..i] == s[..i];
  }

  /** The value of a digit string is at least that of any of its prefixes. */
  lemma {:induction false} DecimalValueMonotone(s: string, i: nat)
    requires AllDigits(s) && i <= |s|
    ensures DecimalValue(s[..i]) <= DecimalValue(s)
    decreases |s|
  {
    if i < |s| {
      var init := s[..|s| - 1];
      assert init[..i] == s[..i];
      DecimalValueMonotone(init, i);
    } else {
      assert s[..i] == s;
    }
  }

  /** The scan reads exactly the leading digit run: it overflows when that
      run's value does, and otherwise stops at the first non-digit. */
  lemma {:induction false} ScanReadsDigitRun(s: string, i: nat, n: nat)
    requires i <= |DigitRun(s)| && n <= MaxUint64
    requires n == DecimalValue(DigitRun(s)[..i])
    ensures var run := DigitRun(s);
      ScanUint(s, i, n) ==
        if DecimalValue(run) > MaxUint64 then RangeErr
        else if |run| < |s| then SyntaxErr
        else Parsed(DecimalValue(run))
    decreases |s| - i
  {
    var run := DigitRun(s);
    if i == |run| {
      assert run[..i] == run;
    } else {
      assert run[i] == s[i];
      DecimalValueOfPrefix(run, i);
      var n1 := n * 10 + DigitValue(s[i]);
      if n1 > MaxUint64 {
        DecimalValueMonotone(run, i + 1);
      } else {
        ScanReadsDigitRun(s, i + 1, n1);
      }
    }
  }

  /** `Atoi` succeeds exactly where Go's `ParseInt` loop does, with the same
      value, and a failing `Atoi` reports a range error exactly where that
      loop does. */
  lemma AtoiAgreesWithParseInt(s: string)
    ensures ParseInt(s).Parsed? <==> Atoi(s).Some?
    ensures Atoi(s).Some? ==> ParseInt(s).value == Atoi(s).value
    ensures ParseInt(s).RangeErr? <==>
      Atoi(s).None? && (DecimalValue(DigitRun(Unsigned(s))) > MaxUint64 || AtoiSyntax(s))
  {
    var d := Unsigned(s);
    if |d| > 0 {
      assert d[..0] == "";
      ScanReadsDigitRun(d, 0, 0);
      if AllDigits(d) {
        assert DigitRun(d) == d;
      }
    }
  }

  function Pow10(k: nat): (p: nat)
    ensures p >= 1
  {
    if k == 0 then 1 else 10 * Pow10(k - 1)
  }

  lemma {:induction false} Pow10Add(a: nat, b: nat)
    ensures Pow10(a + b) == Pow10(a) * Pow10(b)
  {
    if a > 0 {
      Pow10Add(a - 1, b);
    }
  }

  /** Twenty nines overflow 2^64 - 1, so the range error is reported
      before the stray character after them is reached, as for
      "99999999999999999999x". */
  lemma NinesThenJunkOverflow(s: string)
    requires |s| == 21 && !IsDigit(s[20]) && forall k | 0 <= k < 20 :: s[k] == '9'
    ensures Atoi(s).None? && ParseInt(s).RangeErr?
    ensures AtoiError(s) == "strconv.Atoi: parsing " + Quote(s) + ": value out of range"
  {
    assert !IsSign(s[0]) && !AllDigits(s);
    assert Atoi(s).None?;
    assert Unsigned(s) == s;
    NinesOverflowScan(s);
    assert ParseInt(s) == RangeErr;
  }

  /** The digit loop overflows on the twentieth nine. */
  lemma NinesOverflowScan(s: string)
    requires |s| >= 20 && forall k | 0 <= k < 20 :: s[k] == '9'
    ensures ScanUint(s, 0, 0) == RangeErr
  {
    var n: nat := 0;
    var i: nat := 0;
    while i < 19
      invariant i <= 19 && n + 1 == Pow10(i)
      invariant ScanUint(s, 0, 0) == ScanUint(s, i, n)
    {
      n, i := n * 10 + 9, i + 1;
    }
    Pow10Add(10, 9);
    assert Pow10(9) == 1_000_000_000;
    assert DigitValue(s[19]) == 9;
    assert n * 10 + 9 > MaxUint64;
  }

  /** A stray character after a short digit run is a syntax error. */
  lemma AtoiErrorJunk()
    ensures AtoiError("1x") == "strconv.Atoi: parsing \"1x\": invalid syntax"
  {
    var s := "1x";
    assert !IsDigit(s[1]) && Atoi(s).None?;
    assert ScanUint(s, 0, 0) == ScanUint(s, 1, 1) == SyntaxErr;
  }

  /** `strconv.Quote`, as `%q` prints a string: wrapped in double quotes.
      Escaping of quotes, backslashes and unprintable runes is not modelled. */
  function Quote(s: string): (r: string)
    ensures |r| == |s| + 2 && r[0] == '"' && r[|r| - 1] == '"' && r[1..|r| - 1] == s
  {
    "\"" + s + "\""
  }

  // ---------------------------------------------------------------------
  // strings

  predicate HasPrefix(s: string, prefix: string) {
    |prefix| <= |s| && s[..|prefix|] == prefix
  }

  /** `strings.TrimPrefix`: drops one leading occurrence of the prefix. */
  function TrimPrefix(s: string, prefix: string): (r: string)
    ensures HasPrefix(s, prefix) ==> s == prefix + r
    ensures !HasPrefix(s, prefix) ==> r == s
  {
    if HasPrefix(s, prefix) then s[|prefix|..] else s
  }

  /** With a non-empty prefix, TrimPrefix leaves the string unchanged
      exactly when the prefix is absent: the test Go code uses to detect a
      missing prefix. */
  lemma TrimPrefixUnchangedIff(s: string, prefix: string)
    requires prefix != ""
    ensures TrimPrefix(s, prefix) == s <==> !HasPrefix(s, prefix)
  {
    if HasPrefix(s, prefix) {
      assert |TrimPrefix(s, prefix)| < |s|;
    }
  }

  /** `strings.Contains`, also the meaning given here to SQL `LIKE '%t%'`. */
  predicate Contains(s: string, sub: string) {
    exists i | 0 <= i <= |s| - |sub| :: OccursAt(s, sub, i)
  }

  predicate OccursAt(s: string, sub: string, i: nat) {
    i + |sub| <= |s| && s[i..i + |sub|] == sub
  }

  /** An empty search term matches every string. */
  lemma ContainsEmpty(s: string)
    ensures Contains(s, "")
  {
    assert OccursAt(s, "", 0);
  }

  /** Lower-casing of one rune as `unicode.ToLower` does it, for the runes
      whose lower case is ASCII: 'A'..'Z', U+0130 (capital I with dot
      above, lowered to 'i') and U+212A (Kelvin sign, lowered to 'k').
      Every other rune is kept; Go maps some of them to other non-ASCII
      runes, which cannot change whether an extension is on the ASCII
      allow-list. */
  function LowerRune(c: char): char {
    if 'A' <= c <= 'Z' then (c as int + 32) as char
    else if c == '\U{0130}' then 'i'
    else if c == '\U{212A}' then 'k'
    else c
  }

  function UpperAscii(c: char): char {
    if 'a' <= c <= 'z' then (c as int - 32) as char else c
  }

  function ToLower(s: string): (r: string)
    ensures |r| == |s|
  {
    seq(|s|, i requires 0 <= i < |s| => LowerRune(s[i]))
  }

  /** No character of `s` is an upper-case ASCII letter. */
  predicate NoAsciiUpper(s: string) {
    forall i :: 0 <= i < |s| ==> !('A' <= s[i] <= 'Z')
  }

  /** `r` keeps every ASCII character of `s` other than an upper-case
      letter in place. */
  predicate KeepsOtherAscii(s: string, r: string)
    requires |r| == |s|
  {
    forall i :: 0 <= i < |s| && (s[i] as int) < 128 && !('A' <= s[i] <= 'Z') ==> r[i] == s[i]
  }

  /** ASCII upper-casing, used to state case-insensitivity. */
  function ToUpperAscii(s: string): (r: string)
    ensures |r| == |s|
  {
    seq(|s|, i requires 0 <= i < |s| => UpperAscii(s[i]))
  }

  /** Lower-casing leaves no upper-case ASCII letter and keeps every other
      ASCII character. */
  lemma ToLowerLowersAscii(s: string)
    ensures NoAsciiUpper(ToLower(s)) && KeepsOtherAscii(s, ToLower(s))
  {
  }

  lemma ToLowerIdempotent(s: string)
    ensures ToLower(ToLower(s)) == ToLower(s)
  {
  }

  lemma ToLowerIgnoresUpperCasing(s: string)
    ensures ToLower(ToUpperAscii(s)) == ToLower(s)
  {
  }

  // ---------------------------------------------------------------------
  // path/filepath

  /** `filepath.Ext` with '/' as separator: the suffix of the path that
      starts at the last '.' of its final element, or "" when that element
      has no '.'. */
  function Ext(path: string): string
  {
    if |path| == 0 || path[|path| - 1] == '/' then ""
    else if path[|path| - 1] == '.' then "."
    else
      var e := Ext(path[..|path| - 1]);
      if e == "" then "" else e + [path[|path| - 1]]
  }

  /** Past its first character, `e` holds no '.' and no '/'. */
  predicate NoDotOrSlashAfterFirst(e: string) {
    forall k :: 1 <= k < |e| ==> e[k] != '.' && e[k] != '/'
  }

  /** Every '.' of the path lies in a directory element: a '/' follows it. */
  predicate EveryDotBeforeSlash(path: string) {
    forall i :: 0 <= i < |path| && path[i] == '.' ==> SlashAfter(path, i)
  }

  predicate SlashAfter(path: string, i: int) {
    exists j :: 0 <= i < j < |path| && path[j] == '/'
  }

  /** The extension is a suffix of the path that is empty or starts with
      a '.'; past that '.' it holds no '.' and no '/'; and it is empty only
      when every '.' of the path lies in a directory element. */
  lemma {:induction false} ExtIsLastDotSuffix(path: string)
    ensures var e := Ext(path);
      && |e| <= |path| && e == path[|path| - |e|..]
      && (e == "" || e[0] == '.')
      && NoDotOrSlashAfterFirst(e)
      && (e == "" ==> EveryDotBeforeSlash(path))
  {
    if |path| > 0 && path[|path| - 1] != '/' && path[|path| - 1] != '.' {
      ExtIsLastDotSuffix(path[..|path| - 1]);
    }
  }

  /** Upper-casing ASCII letters commutes with taking the extension. */
  lemma {:induction false} ExtOfUpper(path: string)
    ensures Ext(ToUpperAscii(path)) == ToUpperAscii(Ext(path))
  {
    var u := ToUpperAscii(path);
    if |path| == 0 {
    } else {
      var init, last := path[..|path| - 1], path[|path| - 1];
      assert u[|u| - 1] == UpperAscii(last);
      if last == '/' || last == '.' {
        assert ToUpperAscii([last]) == [last];
      } else {
        assert u[..|u| - 1] == ToUpperAscii(init);
        ExtOfUpper(init);
        var e := Ext(init);
        if e != "" {
          UpperAppend(e, last);
        }
      }
    }
  }

  lemma UpperAppend(s: string, c: char)
    ensures ToUpperAscii(s + [c]) == ToUpperAscii(s) + [UpperAscii(c)]
  {
  }
}
