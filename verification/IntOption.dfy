/** Integer option values with radix prefixes and size suffixes (libargtable/arg_int.c). */
module IntOption {
  import opened Common

  const EMAXCOUNT := 2
  const EBADINT := 3
  const EOVERFLOW := 4

  const INT_MAX := 0x7fff_ffff
  const INT_MIN := -0x8000_0000
  const LONG_MAX := 0x7fff_ffff_ffff_ffff
  const LONG_MIN := -0x8000_0000_0000_0000

  // ---- Characters ------------------------------------------------------------------------

  function DigitOf(c: char): int {
    if '0' <= c <= '9' then c as int - '0' as int
    else if 'A' <= ToUpper(c) <= 'Z' then ToUpper(c) as int - 'A' as int + 10
    else -1
  }

  predicate IsDigit(c: char, base: nat) { 0 <= DigitOf(c) < base }

  predicate AllSpaces(s: string) { forall k :: 0 <= k < |s| ==> IsSpace(s[k]) }

  predicate AllDigits(s: string, base: nat) { forall k :: 0 <= k < |s| ==> IsDigit(s[k], base) }

  /** The number of blanks and of digits at the start of s. */
  function Spaces(s: string): (n: nat)
    ensures n <= |s|
  {
    if s != [] && IsSpace(s[0]) then 1 + Spaces(s[1..]) else 0
  }

  function Digits(s: string, base: nat): (n: nat)
    ensures n <= |s| && AllDigits(s[..n], base)
  {
    if s != [] && IsDigit(s[0], base) then 1 + Digits(s[1..], base) else 0
  }

  lemma {:induction false} SpacesBefore(sp: string, rest: string)
    requires AllSpaces(sp) && (rest != [] ==> !IsSpace(rest[0]))
    ensures Spaces(sp + rest) == |sp|
  {
    if sp == [] {
      assert sp + rest == rest;
    } else {
      assert (sp + rest)[1..] == sp[1..] + rest;
      SpacesBefore(sp[1..], rest);
    }
  }

  lemma {:induction false} DigitsBefore(num: string, rest: string, base: nat)
    requires AllDigits(num, base) && (rest != [] ==> !IsDigit(rest[0], base))
    ensures Digits(num + rest, base) == |num|
  {
    if num == [] {
      assert num + rest == rest;
    } else {
      assert (num + rest)[1..] == num[1..] + rest;
      DigitsBefore(num[1..], rest, base);
    }
  }

  // ---- Numerals --------------------------------------------------------------------------

  /** The number a numeral stands for. */
  function Value(num: string, base: nat): (v: nat)
    requires AllDigits(num, base)
  {
    if num == "" then 0 else Value(num[..|num| - 1], base) * base + DigitOf(num[|num| - 1])
  }

  function DigitChar(d: nat): (c: char)
    requires d < 36
    ensures DigitOf(c) == d
  {
    if d < 10 then ('0' as int + d) as char else ('a' as int + d - 10) as char
  }

  /** The bases in use. */
  predicate Radix(base: nat) { base == 2 || base == 8 || base == 10 || base == 16 }

  lemma DivSmaller(n: nat, base: nat)
    requires Radix(base) && base <= n
    ensures 0 < n / base < n && n == n / base * base + n % base && 0 <= n % base < base
  {
    if base == 2 {
      assert n / base == n / 2;
    } else if base == 8 {
      assert n / base == n / 8;
    } else if base == 10 {
      assert n / base == n / 10;
    } else {
      assert n / base == n / 16;
    }
  }

  /** The numeral of n. */
  function Numeral(n: nat, base: nat): (s: string)
    requires Radix(base)
    ensures s != "" && AllDigits(s, base)
  {
    if n < base then [DigitChar(n)] else
      DivSmaller(n, base);
      Numeral(n / base, base) + [DigitChar(n % base)]
  }

  lemma {:induction false} NumeralValue(n: nat, base: nat)
    requires Radix(base)
    ensures Value(Numeral(n, base), base) == n
  {
    var s := Numeral(n, base);
    if n < base {
      assert s[..|s| - 1] == "";
    } else {
      DivSmaller(n, base);
      assert s[..|s| - 1] == Numeral(n / base, base);
      NumeralValue(n / base, base);
    }
  }

  // ---- strtol ----------------------------------------------------------------------------

  /** What a conversion yields: the number, and how many characters it has consumed (none if there
      is no number). */
  datatype Conversion = Conversion(value: int, consumed: nat)

  function Clamp(v: int): int { if v < LONG_MIN then LONG_MIN else if v > LONG_MAX then LONG_MAX else v }

  /** The sign of a number after blanks, and the offset of what follows it. */
  datatype Signed = Signed(factor: int, offset: nat)

  function SplitSign(s: string): (g: Signed)
    ensures g.offset <= |s|
  {
    var p := Spaces(s);
    if p < |s| && s[p] == '-' then Signed(-1, p + 1)
    else if p < |s| && s[p] == '+' then Signed(1, p + 1)
    else Signed(1, p)
  }

  /** In base 16, strtol skips a 0x that is followed by a digit. */
  function HexPrefix(s: string, base: nat): (n: nat)
    ensures n <= |s|
  {
    if base == 16 && |s| >= 3 && s[0] == '0' && SameLetter(s[1], 'X') && IsDigit(s[2], 16) then 2 else 0
  }

  /** The digits at the start of s. */
  function Magnitude(s: string, base: nat): (r: Conversion)
    ensures r.consumed <= |s|
  {
    var h := HexPrefix(s, base);
    var d := Digits(s[h..], base);
    if d == 0 then Conversion(0, 0) else Conversion(Value(s[h..][..d], base), h + d)
  }

  /** The library function strtol for 64-bit long: it saturates. */
  function Strtol(s: string, base: nat): (r: Conversion)
    ensures r.consumed <= |s|
  {
    var g := SplitSign(s);
    var r := Magnitude(s[g.offset..], base);
    if r.consumed == 0 then r else Conversion(Clamp(g.factor * r.value), g.offset + r.consumed)
  }

  /** A conversion after a sign. */
  function Shifted(g: Signed, r: Conversion): Conversion {
    if r.consumed == 0 then Conversion(0, 0) else Conversion(g.factor * r.value, g.offset + r.consumed)
  }

  /** Whatever strtol makes of the text after 0 and the letter X. */
  function AfterPrefix(s: string, X: char, base: nat): (r: Conversion)
    ensures r.consumed <= |s|
  {
    if |s| >= 2 && s[0] == '0' && SameLetter(s[1], X) then Shifted(Signed(1, 2), Strtol(s[2..], base))
    else Conversion(0, 0)
  }

  /** strtol0X. */
  function Prefixed(s: string, X: char, base: nat): (r: Conversion)
    ensures r.consumed <= |s|
  {
    Shifted(SplitSign(s), AfterPrefix(s[SplitSign(s).offset..], X, base))
  }

  method SkipSpaces(s: string) returns (ptr: nat)
    ensures ptr == Spaces(s)
  {
    ptr := 0;
    while ptr < |s| && IsSpace(s[ptr])
      invariant ptr <= |s| && Spaces(s) == ptr + Spaces(s[ptr..])
    {
      ptr := ptr + 1;
    }
  }

  /** The optional sign character. */
  method ScanSign(s: string) returns (sign: int, ptr: nat)
    ensures Signed(sign, ptr) == SplitSign(s)
  {
    sign := 1;
    ptr := SkipSpaces(s);
    if ptr < |s| {
      match s[ptr] {
        case '+' => ptr := ptr + 1;
        case '-' => ptr, sign := ptr + 1, -1;
        case _ =>
      }
    }
  }

  /** The part of strtol0X after the sign; end is 0 on failure. */
  method ScanPrefix(str: string, X: char, base: nat) returns (val: int, end: nat)
    ensures Conversion(val, end) == AfterPrefix(str, X, base)
  {
    var ptr := 0;
    if ptr >= |str| || str[ptr] != '0' {
      return 0, 0;
    }
    ptr := ptr + 1;
    if ptr >= |str| || ToUpper(str[ptr]) != ToUpper(X) {
      return 0, 0;
    }
    ptr := ptr + 1;
    var r := Strtol(str[ptr..], base);
    if r.consumed == 0 {
      return 0, 0;
    }
    return r.value, ptr + r.consumed;
  }

  method Strtol0X(str: string, X: char, base: nat) returns (val: int, end: nat)
    ensures Conversion(val, end) == Prefixed(str, X, base)
  {
    var sign, ptr := ScanSign(str);
    val, end := ScanPrefix(str[ptr..], X, base);
    if end == 0 {
      return 0, 0;
    }
    return sign * val, ptr + end;
  }

  // ---- Suffixes --------------------------------------------------------------------------

  /** s is the suffix, in any case, and then only blanks. */
  predicate IsSuffix(s: string, suffix: string) {
    && |s| >= |suffix|
    && (forall k :: 0 <= k < |suffix| ==> SameLetter(s[k], suffix[k]))
    && AllSpaces(s[|suffix|..])
  }

  method DetectSuffix(str: string, suffix: string) returns (found: bool)
    requires '\0' !in str && '\0' !in suffix
    requires forall k :: 0 <= k < |suffix| ==> !IsSpace(suffix[k])
    ensures found == IsSuffix(str, suffix)
  {
    var i := 0;
    while ToUpper(At(str, i)) == ToUpper(At(suffix, i))
      invariant i <= |str| && i <= |suffix|
      invariant forall k :: 0 <= k < i ==> SameLetter(str[k], suffix[k])
      decreases |str| - i
    {
      if At(str, i) == '\0' {
        return true;
      }
      i := i + 1;
    }
    if i < |suffix| {
      return false;
    }
    while i < |str| && IsSpace(str[i])
      invariant |suffix| <= i <= |str| && forall k :: |suffix| <= k < i ==> IsSpace(str[k])
    {
      i := i + 1;
    }
    found := i == |str|;
    assert !found ==> str[|suffix|..][i - |suffix|] == str[i];
  }

  // ---- scanfn ----------------------------------------------------------------------------

  datatype Outcome = Stored(value: int) | Failed(error: int)

  /** The number at the start of an argument: hexadecimal, octal or binary with a prefix, or decimal. */
  function ReadNumber(s: string): (r: Conversion)
    ensures r.consumed <= |s|
  {
    Else(Prefixed(s, 'X', 16), Else(Prefixed(s, 'O', 8), Else(Prefixed(s, 'B', 2), Strtol(s, 10))))
  }

  function Else(r: Conversion, r': Conversion): Conversion { if r.consumed != 0 then r else r' }

  /** What the text after the number multiplies it by. */
  function Multiplier(rest: string): Option<int> {
    if IsSuffix(rest, "KB") then Some(1024)
    else if IsSuffix(rest, "MB") then Some(1048576)
    else if IsSuffix(rest, "GB") then Some(1073741824)
    else if IsSuffix(rest, "") then Some(1)
    else None
  }

  predicate InRange(v: int) { INT_MIN <= v <= INT_MAX }

  /** The product is stored if it is an int. */
  function Scaled(v: int, m: Option<int>): Outcome {
    match m
    case None => Failed(EBADINT)
    case Some(k) => if InRange(v * k) then Stored(v * k) else Failed(EOVERFLOW)
  }

  function Scanned(s: string): Outcome { Finished(s, ReadNumber(s)) }

  function Finished(s: string, n: Conversion): Outcome
    requires n.consumed <= |s|
  {
    if n.consumed == 0 then Failed(EBADINT) else Scaled(n.value, Multiplier(s[n.consumed..]))
  }

  /** struct arg_int. */
  class ArgInt {
    const maxcount: nat
    const ival: array<int>
    var count: nat

    ghost predicate Valid()
      reads this
    {
      count <= maxcount == ival.Length
    }

    constructor (maxcount: nat)
      ensures Valid() && count == 0 && this.maxcount == maxcount && fresh(ival)
    {
      this.maxcount := maxcount;
      ival := new int[maxcount];
      count := 0;
    }

    /** The four attempts to read a number. */
    method Extract(argval: string) returns (val: int, end: nat)
      ensures Conversion(val, end) == ReadNumber(argval)
    {
      val, end := Strtol0X(argval, 'X', 16);
      if end == 0 {
        val, end := Strtol0X(argval, 'O', 8);
        if end == 0 {
          val, end := Strtol0X(argval, 'B', 2);
          if end == 0 {
            var r := Strtol(argval, 10);
            val, end := r.value, r.consumed;
          }
        }
      }
    }

    /** The range checks before the multiplications, where INT_MIN divided by a power of two is
        exact and INT_MAX is truncated. */
    method Multiply(v: int, end: string) returns (val: int, errorcode: int)
      requires '\0' !in end
      ensures Scaled(v, Multiplier(end)) == if errorcode == 0 then Stored(val) else Failed(errorcode)
    {
      val, errorcode := v, 0;
      if val > INT_MAX || val < INT_MIN {
        errorcode := EOVERFLOW;
      }
      var kb := DetectSuffix(end, "KB");
      if kb {
        if val > 2097151 || val < -2097152 {
          errorcode := EOVERFLOW;
        } else {
          val := val * 1024;
        }
        return;
      }
      var mb := DetectSuffix(end, "MB");
      if mb {
        if val > 2047 || val < -2048 {
          errorcode := EOVERFLOW;
        } else {
          val := val * 1048576;
        }
        return;
      }
      var gb := DetectSuffix(end, "GB");
      if gb {
        if val > 1 || val < -2 {
          errorcode := EOVERFLOW;
        } else {
          val := val * 1073741824;
        }
        return;
      }
      var plain := DetectSuffix(end, "");
      if !plain {
        errorcode := EBADINT;
      }
    }

    /** scanfn; None is an option without its optional value. */
    method ScanFn(argval: Option<string>) returns (errorcode: int)
      requires Valid() && (argval.Some? ==> '\0' !in argval.value)
      modifies this, ival
      ensures Valid()
      ensures old(count) == maxcount ==>
                errorcode == EMAXCOUNT && count == old(count) && ival[..] == old(ival[..])
      ensures old(count) < maxcount && argval.None? ==>
                errorcode == 0 && count == old(count) + 1 && ival[..] == old(ival[..])
      ensures old(count) < maxcount && argval.Some? ==>
                match Scanned(argval.value)
                case Stored(v) =>
                  errorcode == 0 && count == old(count) + 1 && ival[..] == old(ival[..])[old(count) := v]
                case Failed(e) => errorcode == e && count == old(count) && ival[..] == old(ival[..])
    {
      if count == maxcount {
        return EMAXCOUNT;
      }
      if argval.None? {
        count := count + 1;
        return 0;
      }
      var val, end := Extract(argval.value);
      if end == 0 {
        return EBADINT;
      }
      val, errorcode := Multiply(val, argval.value[end..]);
      if errorcode == 0 {
        ival[count] := val;
        count := count + 1;
      }
    }
  }

  // ---- Round trips -----------------------------------------------------------------------

  predicate Sign(sign: string) { sign == "" || sign == "+" || sign == "-" }

  function Factor(sign: string): int { if sign == "-" then -1 else 1 }

  /** What may follow a number: the end, a blank or a suffix letter. */
  predicate Stops(tail: string) {
    tail != "" ==> IsSpace(tail[0]) || SameLetter(tail[0], 'K') || SameLetter(tail[0], 'M') || SameLetter(tail[0], 'G')
  }

  lemma StopsNumber(tail: string, base: nat)
    requires Stops(tail) && Radix(base)
    ensures tail != "" ==> !IsDigit(tail[0], base) && !SameLetter(tail[0], 'X')
  {}

  /** strtol reads a signed numeral. */
  lemma StrtolReads(s: string, num: string, tail: string, base: nat)
    requires Radix(base) && num != "" && AllDigits(num, base) && Stops(tail)
    requires s[SplitSign(s).offset..] == num + tail
    ensures Strtol(s, base) == Conversion(Clamp(SplitSign(s).factor * Value(num, base)), SplitSign(s).offset + |num|)
  {
    MagnitudeReads(num, tail, base);
  }

  lemma MagnitudeReads(num: string, tail: string, base: nat)
    requires Radix(base) && num != "" && AllDigits(num, base) && Stops(tail)
    ensures Magnitude(num + tail, base) == Conversion(Value(num, base), |num|)
  {
    var rest := num + tail;
    StopsNumber(tail, base);
    assert |num| == 1 && tail != "" ==> rest[1] == tail[0];
    assert HexPrefix(rest, base) == 0;
    DigitsBefore(num, tail, base);
    assert rest[0..] == rest && rest[..|num|] == num;
  }

  /** A number starts with neither a blank nor a sign. */
  predicate Unsigned(s: string) { s != "" && !IsSpace(s[0]) && s[0] != '+' && s[0] != '-' }

  lemma SignReads(blanks: string, sign: string, rest: string)
    requires AllSpaces(blanks) && Sign(sign) && Unsigned(rest)
    ensures var s := blanks + (sign + rest);
            SplitSign(s) == Signed(Factor(sign), |blanks| + |sign|) && s[|blanks| + |sign|..] == rest
  {
    SpacesBefore(blanks, sign + rest);
    var s := blanks + (sign + rest);
    assert s[|blanks|] == (sign + rest)[0];
  }

  /** The letter after the 0 of a prefix. */
  function Letter(base: nat): char { if base == 16 then 'X' else if base == 8 then 'O' else 'B' }

  predicate PrefixFor(prefix: string, base: nat) {
    if base == 10 then prefix == ""
    else |prefix| == 2 && prefix[0] == '0' && SameLetter(prefix[1], Letter(base))
  }

  /** strtol0X reads a numeral with its prefix. */
  lemma PrefixReads(s: string, prefix: string, num: string, tail: string, base: nat)
    requires Radix(base) && num != "" && AllDigits(num, base) && Stops(tail)
    requires base != 10 && PrefixFor(prefix, base) && s[SplitSign(s).offset..] == prefix + (num + tail)
    ensures Prefixed(s, Letter(base), base)
         == Conversion(SplitSign(s).factor * Clamp(Value(num, base)), SplitSign(s).offset + 2 + |num|)
  {
    var rest := prefix + (num + tail);
    assert rest[0] == prefix[0] && rest[1] == prefix[1] && rest[2..] == num + tail;
    UnsignedReads(num, tail, base);
  }

  lemma UnsignedReads(num: string, tail: string, base: nat)
    requires Radix(base) && num != "" && AllDigits(num, base) && Stops(tail)
    ensures Strtol(num + tail, base) == Conversion(Clamp(Value(num, base)), |num|)
  {
    assert (num + tail)[0] == num[0];
    NoSign(num + tail);
    StrtolReads(num + tail, num, tail, base);
  }

  lemma NoSign(s: string)
    requires Unsigned(s)
    ensures SplitSign(s) == Signed(1, 0) && s[SplitSign(s).offset..] == s
  {}

  lemma SignIs(s: string)
    ensures SplitSign(s).factor == 1 || SplitSign(s).factor == -1
  {}

  /** strtol0X reads nothing where the prefix is missing. */
  lemma PrefixFails(s: string, rest: string, X: char, base: nat)
    requires s[SplitSign(s).offset..] == rest
    requires |rest| >= 2 && rest[0] == '0' ==> !SameLetter(rest[1], X)
    ensures Prefixed(s, X, base) == Conversion(0, 0)
  {}

  /** The number read is the number written, unless both are beyond the same end of int. */
  predicate Faithful(v: int, n: int) { v == n || (v > INT_MAX && n > INT_MAX) || (v < INT_MIN && n < INT_MIN) }

  lemma NumberReads(s: string, prefix: string, num: string, tail: string, base: nat)
    requires Radix(base) && num != "" && AllDigits(num, base) && Stops(tail) && PrefixFor(prefix, base)
    requires s[SplitSign(s).offset..] == prefix + (num + tail)
    ensures var r, g := ReadNumber(s), SplitSign(s);
            r.consumed == g.offset + |prefix| + |num| && Faithful(r.value, g.factor * Value(num, base))
  {
    OtherPrefixesFail(s, prefix, num, tail, base);
    SignIs(s);
    if base == 10 {
      assert prefix + (num + tail) == num + tail;
      StrtolReads(s, num, tail, 10);
      ClampFaithful(1, SplitSign(s).factor * Value(num, base));
    } else {
      PrefixReads(s, prefix, num, tail, base);
      ClampFaithful(SplitSign(s).factor, Value(num, base));
      ReadPrefixed(s, base);
    }
  }

  lemma ReadPrefixed(s: string, base: nat)
    requires Radix(base) && base != 10 && Prefixed(s, Letter(base), base).consumed != 0
    requires base != 16 ==> Prefixed(s, 'X', 16) == Conversion(0, 0)
    requires base == 2 ==> Prefixed(s, 'O', 8) == Conversion(0, 0)
    ensures ReadNumber(s) == Prefixed(s, Letter(base), base)
  {}

  lemma OtherPrefixesFail(s: string, prefix: string, num: string, tail: string, base: nat)
    requires Radix(base) && num != "" && AllDigits(num, base) && Stops(tail) && PrefixFor(prefix, base)
    requires s[SplitSign(s).offset..] == prefix + (num + tail)
    ensures base != 16 ==> Prefixed(s, 'X', 16) == Conversion(0, 0)
    ensures base != 8 ==> Prefixed(s, 'O', 8) == Conversion(0, 0)
    ensures base != 2 ==> Prefixed(s, 'B', 2) == Conversion(0, 0)
  {
    var rest := prefix + (num + tail);
    if |rest| >= 2 {
      assert rest[1] == if prefix != "" then prefix[1] else if |num| > 1 then num[1] else tail[0];
    }
    if base != 16 {
      PrefixFails(s, rest, 'X', 16);
    }
    if base != 8 {
      PrefixFails(s, rest, 'O', 8);
    }
    if base != 2 {
      PrefixFails(s, rest, 'B', 2);
    }
  }

  /** The size suffixes. */
  function SuffixFor(m: int): string {
    if m == 1024 then "KB" else if m == 1048576 then "MB" else if m == 1073741824 then "GB" else ""
  }

  predicate Size(m: int) { m == 1 || m == 1024 || m == 1048576 || m == 1073741824 }

  lemma SuffixReads(suffix: string, trailing: string, m: int)
    requires Size(m) && |suffix| == |SuffixFor(m)| && AllSpaces(trailing)
    requires forall k :: 0 <= k < |suffix| ==> SameLetter(suffix[k], SuffixFor(m)[k])
    ensures Multiplier(suffix + trailing) == Some(m) && Stops(suffix + trailing)
  {
    var s := suffix + trailing;
    assert s[|suffix|..] == trailing;
    assert forall k :: 0 <= k < |suffix| ==> s[k] == suffix[k];
    if m == 1 {
      assert s == trailing && IsSuffix(s, "");
      assert s != "" ==> IsSpace(s[0]);
    } else {
      assert s[0] == suffix[0] && IsSuffix(s, SuffixFor(m));
    }
  }

  lemma FaithfulScales(v: int, n: int, m: int)
    requires Faithful(v, n) && Size(m)
    ensures Scaled(v, Some(m)) == Scaled(n, Some(m))
  {}

  lemma ScanUpToSuffix(s: string, prefix: string, num: string, tail: string, base: nat, m: int)
    requires Radix(base) && num != "" && AllDigits(num, base) && Stops(tail) && PrefixFor(prefix, base)
    requires s[SplitSign(s).offset..] == prefix + (num + tail) && Size(m) && Multiplier(tail) == Some(m)
    ensures Scanned(s) == Scaled(SplitSign(s).factor * Value(num, base), Some(m))
  {
    NumberReads(s, prefix, num, tail, base);
    var r := ReadNumber(s);
    TailOf(s, SplitSign(s).offset, prefix, num, tail, r.consumed);
    Finishes(s, r, tail, SplitSign(s).factor * Value(num, base), m);
  }

  lemma Finishes(s: string, r: Conversion, tail: string, n: int, m: int)
    requires 0 < r.consumed <= |s| && s[r.consumed..] == tail && Multiplier(tail) == Some(m) && Size(m)
    requires Faithful(r.value, n)
    ensures Finished(s, r) == Scaled(n, Some(m))
  {
    FaithfulScales(r.value, n, m);
  }

  lemma TailOf(s: string, q: nat, prefix: string, num: string, tail: string, end: nat)
    requires q <= |s| && s[q..] == prefix + (num + tail) && end == q + |prefix| + |num|
    ensures end <= |s| && s[end..] == tail
  {
    assert s[end..] == s[q..][|prefix| + |num|..];
  }

  /** An argument made of blanks, a sign, a prefix for the base, digits, a size suffix in any case and
      blanks is read as the number times the size, if that is an int, and is an overflow otherwise. */
  lemma ScanReads(blanks: string, sign: string, prefix: string, num: string, suffix: string, trailing: string,
                  base: nat, m: int)
    requires AllSpaces(blanks) && Sign(sign) && Radix(base) && PrefixFor(prefix, base)
    requires num != "" && AllDigits(num, base)
    requires Size(m) && |suffix| == |SuffixFor(m)| && AllSpaces(trailing)
    requires forall k :: 0 <= k < |suffix| ==> SameLetter(suffix[k], SuffixFor(m)[k])
    ensures Scanned(blanks + (sign + (prefix + (num + (suffix + trailing)))))
         == Scaled(Factor(sign) * Value(num, base), Some(m))
  {
    var tail := suffix + trailing;
    var rest := prefix + (num + tail);
    SuffixReads(suffix, trailing, m);
    assert rest[0] == if prefix == "" then num[0] else '0';
    SignReads(blanks, sign, rest);
    ScanUpToSuffix(blanks + (sign + rest), prefix, num, tail, base, m);
  }

  /** Every int, written in any of the four bases, is read back. */
  lemma RoundTrip(n: int, prefix: string, base: nat)
    requires InRange(n) && Radix(base) && PrefixFor(prefix, base)
    ensures var sign := if n < 0 then "-" else "";
            var num := Numeral(if n < 0 then -n else n, base);
            Scanned(sign + (prefix + num)) == Stored(n)
  {
    var sign := if n < 0 then "-" else "";
    var num := Numeral(if n < 0 then -n else n, base);
    NumeralValue(if n < 0 then -n else n, base);
    ScanReads("", sign, prefix, num, "", "", base, 1);
    assert num + ("" + "") == num && "" + (sign + (prefix + num)) == sign + (prefix + num);
  }

  /** strtol takes a sign of its own after the prefix, and both signs count: -0x-5 is read as 5. */
  lemma SecondSign(sign: string, prefix: string, inner: string, num: string, base: nat)
    requires Sign(sign) && Sign(inner) && Radix(base) && base != 10 && PrefixFor(prefix, base)
    requires num != "" && AllDigits(num, base)
    ensures Scanned(sign + (prefix + (inner + num)))
         == Scaled(Factor(sign) * (Factor(inner) * Value(num, base)), Some(1))
  {
    var v := Factor(inner) * Value(num, base);
    SecondSignNumber(sign, prefix, inner, num, base);
    ClampFaithful(Factor(sign), v);
    EndsThere(sign + (prefix + (inner + num)), Factor(sign) * Clamp(v), Factor(sign) * v);
  }

  lemma ClampFaithful(f: int, v: int)
    requires f == 1 || f == -1
    ensures Faithful(f * Clamp(v), f * v)
  {}

  /** A number at which the argument ends. */
  lemma EndsThere(s: string, value: int, n: int)
    requires s != "" && ReadNumber(s) == Conversion(value, |s|) && Faithful(value, n)
    ensures Scanned(s) == Scaled(n, Some(1))
  {
    NoSuffix(s[|s|..]);
    Finishes(s, Conversion(value, |s|), s[|s|..], n, 1);
  }

  lemma NoSuffix(rest: string)
    requires rest == ""
    ensures Multiplier(rest) == Some(1)
  {}

  lemma SecondSignNumber(sign: string, prefix: string, inner: string, num: string, base: nat)
    requires Sign(sign) && Sign(inner) && Radix(base) && base != 10 && PrefixFor(prefix, base)
    requires num != "" && AllDigits(num, base)
    ensures var s := sign + (prefix + (inner + num));
            ReadNumber(s) == Conversion(Factor(sign) * Clamp(Factor(inner) * Value(num, base)), |s|)
  {
    var rest := prefix + (inner + num);
    assert rest[0] == prefix[0] && rest[1] == prefix[1] && rest[2..] == inner + num;
    SignOnly(sign, rest);
    var v := Conversion(Clamp(Factor(inner) * Value(num, base)), |inner| + |num|);
    InnerReads(inner, num, base);
    AfterLetter(rest, Letter(base), base, v);
    SecondSignReads(sign + rest, rest, Factor(sign), |sign|, base, Conversion(v.value, 2 + v.consumed));
  }

  lemma SignOnly(sign: string, rest: string)
    requires Sign(sign) && Unsigned(rest)
    ensures SplitSign(sign + rest) == Signed(Factor(sign), |sign|) && (sign + rest)[|sign|..] == rest
  {
    SignReads("", sign, rest);
    assert [] + (sign + rest) == sign + rest;
  }

  lemma InnerReads(inner: string, num: string, base: nat)
    requires Sign(inner) && Radix(base) && num != "" && AllDigits(num, base)
    ensures Strtol(inner + num, base) == Conversion(Clamp(Factor(inner) * Value(num, base)), |inner| + |num|)
  {
    SignOnly(inner, num);
    assert num + [] == num;
    StrtolReads(inner + num, num, [], base);
  }

  lemma AfterLetter(s: string, X: char, base: nat, r: Conversion)
    requires |s| >= 2 && s[0] == '0' && SameLetter(s[1], X) && Strtol(s[2..], base) == r && r.consumed > 0
    ensures AfterPrefix(s, X, base) == Conversion(r.value, 2 + r.consumed)
  {}

  lemma SecondSignReads(s: string, rest: string, factor: int, q: nat, base: nat, r: Conversion)
    requires SplitSign(s) == Signed(factor, q) && s[q..] == rest && Radix(base) && base != 10
    requires |rest| >= 2 && rest[0] == '0' && SameLetter(rest[1], Letter(base))
    requires AfterPrefix(rest, Letter(base), base) == r && r.consumed > 0
    ensures ReadNumber(s) == Conversion(factor * r.value, q + r.consumed)
  {
    if base != 16 {
      PrefixFails(s, rest, 'X', 16);
      if base != 8 {
        PrefixFails(s, rest, 'O', 8);
      }
    }
  }
}
