/** Exactly which arguments arg_int accepts, and what number each of them is (libargtable/arg_int.c). */
module IntGrammar {
  import opened Common
  import opened IntOption

  /** What strtol reads: blanks, a sign, in base 16 perhaps a prefix, and digits. */
  datatype Literal = Literal(blanks: string, sign: string, hex: string, num: string) {
    function Text(): string { blanks + (sign + (hex + num)) }

    predicate Proper(base: nat) {
      && AllSpaces(blanks) && Sign(sign) && num != "" && AllDigits(num, base)
      && (hex == "" || (base == 16 && PrefixFor(hex, 16)))
    }

    function Number(base: nat): int
      requires Proper(base)
    {
      Factor(sign) * Value(num, base)
    }
  }

  /** An argument: a decimal literal; or blanks, a sign, the prefix of another base, and then a literal of
      that base with blanks, a sign and a prefix of its own; and a size suffix and blanks. */
  datatype Argument = Argument(blanks: string, sign: string, prefix: string, literal: Literal,
                               suffix: string, trailing: string, base: nat, size: int) {
    function Tail(): string { suffix + trailing }

    function Text(): string { blanks + (sign + (prefix + (literal.Text() + Tail()))) }

    predicate Proper() {
      && Radix(base) && literal.Proper(base)
      && (if base == 10 then blanks == "" && sign == "" && prefix == ""
          else AllSpaces(blanks) && Sign(sign) && PrefixFor(prefix, base))
      && Size(size) && |suffix| == |SuffixFor(size)| && AllSpaces(trailing)
      && (forall k :: 0 <= k < |suffix| ==> SameLetter(suffix[k], SuffixFor(size)[k]))
    }

    function Number(): int
      requires Proper()
    {
      Factor(sign) * literal.Number(base)
    }
  }

  // ---- What the grammar allows is read ---------------------------------------------------

  lemma MagnitudeAccepts(hex: string, num: string, tail: string, base: nat)
    requires Radix(base) && num != "" && AllDigits(num, base) && Stops(tail)
    requires hex == "" || (base == 16 && PrefixFor(hex, 16))
    ensures Magnitude(hex + (num + tail), base) == Conversion(Value(num, base), |hex| + |num|)
  {
    if hex == "" {
      assert hex + (num + tail) == num + tail;
      MagnitudeReads(num, tail, base);
    } else {
      var s := hex + (num + tail);
      assert s[0] == hex[0] && s[1] == hex[1] && s[2] == num[0] && s[2..] == num + tail;
      StopsNumber(tail, base);
      DigitsBefore(num, tail, base);
      assert (num + tail)[..|num|] == num;
    }
  }

  lemma Regroup(a: string, b: string, c: string, d: string, t: string)
    ensures (a + (b + (c + d))) + t == a + (b + (c + (d + t)))
  {}

  lemma StrtolAt(s: string, l: Literal, rest: string, tail: string, base: nat)
    requires Radix(base) && l.Proper(base) && Stops(tail)
    requires s == l.blanks + (l.sign + rest) && rest == l.hex + (l.num + tail)
    ensures Strtol(s, base) == Conversion(Clamp(l.Number(base)), |l.blanks| + |l.sign| + |l.hex| + |l.num|)
  {
    StartsUnsigned(l, rest, tail, base);
    MagnitudeAccepts(l.hex, l.num, tail, base);
    SignedMagnitude(s, l.blanks, l.sign, rest, base, Conversion(Value(l.num, base), |l.hex| + |l.num|));
  }

  lemma SignedMagnitude(s: string, blanks: string, sign: string, rest: string, base: nat, m: Conversion)
    requires AllSpaces(blanks) && Sign(sign) && Unsigned(rest) && s == blanks + (sign + rest)
    requires Magnitude(rest, base) == m && m.consumed > 0
    ensures Strtol(s, base) == Conversion(Clamp(Factor(sign) * m.value), |blanks| + |sign| + m.consumed)
  {
    SignReads(blanks, sign, rest);
    StrtolFrom(s, Signed(Factor(sign), |blanks| + |sign|), rest, base, m);
  }

  lemma StartsUnsigned(l: Literal, rest: string, tail: string, base: nat)
    requires Radix(base) && l.Proper(base) && rest == l.hex + (l.num + tail)
    ensures Unsigned(rest)
  {
    assert rest[0] == if l.hex == "" then l.num[0] else l.hex[0];
  }

  lemma StrtolFrom(s: string, g: Signed, rest: string, base: nat, m: Conversion)
    requires SplitSign(s) == g && s[g.offset..] == rest && Magnitude(rest, base) == m && m.consumed > 0
    ensures Strtol(s, base) == Conversion(Clamp(g.factor * m.value), g.offset + m.consumed)
  {}

  lemma StrtolAccepts(l: Literal, tail: string, base: nat)
    requires Radix(base) && l.Proper(base) && Stops(tail)
    ensures Strtol(l.Text() + tail, base) == Conversion(Clamp(l.Number(base)), |l.Text()|)
  {
    Regroup(l.blanks, l.sign, l.hex, l.num, tail);
    StrtolAt(l.Text() + tail, l, l.hex + (l.num + tail), tail, base);
  }

  /** After the prefix, a number is read with blanks, a sign and a prefix of its own. */
  lemma PrefixedReads(s: string, blanks: string, sign: string, prefix: string, t: string, base: nat, r: Conversion)
    requires Radix(base) && base != 10 && AllSpaces(blanks) && Sign(sign) && PrefixFor(prefix, base)
    requires s == blanks + (sign + (prefix + t)) && Strtol(t, base) == r && r.consumed > 0
    ensures ReadNumber(s) == Conversion(Factor(sign) * r.value, |blanks| + |sign| + 2 + r.consumed)
  {
    var rest := prefix + t;
    PrefixHead(prefix, t, base);
    SignReads(blanks, sign, rest);
    AfterLetter(rest, Letter(base), base, r);
    SecondSignReads(s, rest, Factor(sign), |blanks| + |sign|, base, Conversion(r.value, 2 + r.consumed));
  }

  lemma PrefixHead(prefix: string, t: string, base: nat)
    requires Radix(base) && base != 10 && PrefixFor(prefix, base)
    ensures var rest := prefix + t;
            |rest| >= 2 && rest[0] == '0' && SameLetter(rest[1], Letter(base)) && rest[2..] == t && Unsigned(rest)
  {
    assert (prefix + t)[0] == prefix[0] && (prefix + t)[1] == prefix[1];
  }

  lemma TailAfter(s: string, a: string, b: string, c: string, d: string, tail: string)
    requires s == a + (b + (c + (d + tail)))
    ensures |s| >= |a| + |b| + |c| + |d| && s[|a| + |b| + |c| + |d|..] == tail
  {}

  /** A proper argument is read as its number times its size. */
  lemma ArgumentReads(a: Argument)
    requires a.Proper()
    ensures Scanned(a.Text()) == Scaled(a.Number(), Some(a.size))
  {
    if a.base == 10 {
      DecimalReads(a, a.literal);
    } else {
      SuffixReads(a.suffix, a.trailing, a.size);
      StrtolAccepts(a.literal, a.Tail(), a.base);
      PrefixedArgument(a.Text(), a.blanks, a.sign, a.prefix, a.literal.Text(), a.Tail(), a.base,
                       a.literal.Number(a.base), a.size);
    }
  }

  lemma DecimalReads(a: Argument, l: Literal)
    requires a.Proper() && a.base == 10 && l == a.literal
    ensures Scanned(a.Text()) == Scaled(a.Number(), Some(a.size))
  {
    ScanReads(l.blanks, l.sign, "", l.num, a.suffix, a.trailing, 10, a.size);
    Regroup(l.blanks, l.sign, "", l.num, a.Tail());
    NothingBefore(l.Text() + a.Tail());
  }

  lemma NothingBefore(t: string)
    ensures "" + ("" + ("" + t)) == t
  {}

  lemma PrefixedArgument(s: string, blanks: string, sign: string, prefix: string, t: string, tail: string, base: nat,
                         n: int, size: int)
    requires Radix(base) && base != 10 && AllSpaces(blanks) && Sign(sign) && PrefixFor(prefix, base)
    requires s == blanks + (sign + (prefix + (t + tail))) && t != ""
    requires Strtol(t + tail, base) == Conversion(Clamp(n), |t|) && Multiplier(tail) == Some(size) && Size(size)
    ensures Scanned(s) == Scaled(Factor(sign) * n, Some(size))
  {
    PrefixedReads(s, blanks, sign, prefix, t + tail, base, Conversion(Clamp(n), |t|));
    TailAfter(s, blanks, sign, prefix, t, tail);
    ClampFaithful(Factor(sign), n);
    Finishes(s, ReadNumber(s), tail, Factor(sign) * n, size);
  }

  // ---- What is read the grammar allows ---------------------------------------------------

  lemma {:induction false} SpacesAreBlank(s: string)
    ensures AllSpaces(s[..Spaces(s)])
  {
    if s != "" && IsSpace(s[0]) {
      SpacesAreBlank(s[1..]);
      assert s[..Spaces(s)] == [s[0]] + s[1..][..Spaces(s[1..])];
    }
  }

  /** The blanks and the sign in front of a number. */
  lemma SignForm(s: string) returns (blanks: string, sign: string)
    ensures AllSpaces(blanks) && Sign(sign) && Factor(sign) == SplitSign(s).factor
    ensures |blanks| + |sign| == SplitSign(s).offset && s == blanks + (sign + s[SplitSign(s).offset..])
  {
    SpacesAreBlank(s);
    var p, q := Spaces(s), SplitSign(s).offset;
    blanks, sign := s[..p], s[p..q];
    assert q == p + 1 ==> sign == [s[p]];
  }

  /** What strtol has consumed is a literal. */
  lemma StrtolForm(s: string, base: nat) returns (l: Literal)
    requires Radix(base) && Strtol(s, base).consumed > 0
    ensures l.Proper(base) && s == l.Text() + s[Strtol(s, base).consumed..]
    ensures |l.Text()| == Strtol(s, base).consumed
  {
    var blanks, sign := SignForm(s);
    var rest := s[SplitSign(s).offset..];
    var hex, num, after := MagnitudeForm(rest, base);
    l := Literal(blanks, sign, hex, num);
    Regroup(blanks, sign, hex, num, after);
    TailAfter(s, blanks, sign, hex, num, after);
  }

  lemma MagnitudeForm(rest: string, base: nat) returns (hex: string, num: string, after: string)
    requires Radix(base) && Magnitude(rest, base).consumed > 0
    ensures num != "" && AllDigits(num, base) && (hex == "" || (base == 16 && PrefixFor(hex, 16)))
    ensures |hex| + |num| == Magnitude(rest, base).consumed && rest == hex + (num + after)
  {
    var h := HexPrefix(rest, base);
    var d := Digits(rest[h..], base);
    hex, num, after := rest[..h], rest[h..][..d], rest[h..][d..];
  }

  /** The suffix and the blanks after a number. */
  lemma SuffixForm(tail: string) returns (suffix: string, trailing: string, size: int)
    requires Multiplier(tail).Some?
    ensures tail == suffix + trailing && Size(size) && |suffix| == |SuffixFor(size)| && AllSpaces(trailing)
    ensures forall k :: 0 <= k < |suffix| ==> SameLetter(suffix[k], SuffixFor(size)[k])
  {
    size := SuffixSize(tail);
    var n := |SuffixFor(size)|;
    suffix, trailing := tail[..n], tail[n..];
  }

  lemma SuffixSize(tail: string) returns (size: int)
    requires Multiplier(tail).Some?
    ensures Size(size) && IsSuffix(tail, SuffixFor(size))
  {
    size := Multiplier(tail).value;
  }

  lemma PrefixedParts(s: string, rest: string, base: nat)
    requires rest == s[SplitSign(s).offset..] && Prefixed(s, Letter(base), base).consumed > 0
    ensures |rest| >= 2 && rest[0] == '0' && SameLetter(rest[1], Letter(base)) && Strtol(rest[2..], base).consumed > 0
    ensures Prefixed(s, Letter(base), base).consumed == SplitSign(s).offset + 2 + Strtol(rest[2..], base).consumed
  {}

  /** What strtol0X has consumed is a sign, a prefix and a literal. */
  lemma PrefixedForm(s: string, base: nat)
    returns (blanks: string, sign: string, prefix: string, l: Literal, after: string)
    requires Radix(base) && base != 10 && Prefixed(s, Letter(base), base).consumed > 0
    ensures AllSpaces(blanks) && Sign(sign) && PrefixFor(prefix, base) && l.Proper(base)
    ensures s == blanks + (sign + (prefix + (l.Text() + after)))
    ensures |blanks| + |sign| + |prefix| + |l.Text()| == Prefixed(s, Letter(base), base).consumed
  {
    var rest := s[SplitSign(s).offset..];
    PrefixedParts(s, rest, base);
    blanks, sign := SignForm(s);
    l := StrtolForm(rest[2..], base);
    after := rest[2..][|l.Text()|..];
    prefix := rest[..2];
    PrefixedText(s, blanks, sign, rest, l.Text(), after);
  }

  lemma PrefixedText(s: string, blanks: string, sign: string, rest: string, t: string, after: string)
    requires s == blanks + (sign + rest) && |rest| >= 2 && rest[2..] == t + after
    ensures s == blanks + (sign + (rest[..2] + (t + after)))
  {
    assert rest == rest[..2] + rest[2..];
  }

  /** The base in which a number is read. */
  function BaseOf(s: string): (base: nat)
    ensures Radix(base)
  {
    if Prefixed(s, 'X', 16).consumed != 0 then 16
    else if Prefixed(s, 'O', 8).consumed != 0 then 8
    else if Prefixed(s, 'B', 2).consumed != 0 then 2
    else 10
  }

  lemma ReadBy(s: string)
    ensures ReadNumber(s) == if BaseOf(s) == 10 then Strtol(s, 10) else Prefixed(s, Letter(BaseOf(s)), BaseOf(s))
  {}

  lemma ArgumentForm(s: string) returns (a: Argument)
    requires ReadNumber(s).consumed != 0 && Multiplier(s[ReadNumber(s).consumed..]).Some?
    ensures a.Proper() && a.Text() == s
  {
    var base, tail := BaseOf(s), s[ReadNumber(s).consumed..];
    ReadBy(s);
    if base == 10 {
      a := DecimalForm(s, tail);
    } else {
      a := OtherForm(s, tail, base);
    }
  }

  lemma DecimalForm(s: string, tail: string) returns (a: Argument)
    requires Strtol(s, 10).consumed > 0 && tail == s[Strtol(s, 10).consumed..] && Multiplier(tail).Some?
    ensures a.Proper() && a.Text() == s
  {
    var suffix, trailing, size := SuffixForm(tail);
    var l := StrtolForm(s, 10);
    NothingBefore(l.Text() + tail);
    a := Argument("", "", "", l, suffix, trailing, 10, size);
  }

  lemma OtherForm(s: string, tail: string, base: nat) returns (a: Argument)
    requires Radix(base) && base != 10 && Prefixed(s, Letter(base), base).consumed > 0
    requires tail == s[Prefixed(s, Letter(base), base).consumed..] && Multiplier(tail).Some?
    ensures a.Proper() && a.Text() == s
  {
    var suffix, trailing, size := SuffixForm(tail);
    var blanks, sign, prefix, l, after := PrefixedForm(s, base);
    TailAfter(s, blanks, sign, prefix, l.Text(), after);
    a := Argument(blanks, sign, prefix, l, suffix, trailing, base, size);
  }

  /** The text can be written as an argument whose number times its size is v. */
  ghost predicate Denotes(s: string, v: int) {
    exists a: Argument :: a.Proper() && a.Text() == s && a.Number() * a.size == v
  }

  ghost predicate IsArgument(s: string) { exists a: Argument :: a.Proper() && a.Text() == s }

  /** An argument is stored as v exactly if it can be written as a proper argument for a number and a size
      whose product is v, an int; and it is refused as no number exactly if it is no proper argument. */
  lemma StoredExactly(s: string, v: int)
    ensures Scanned(s) == Stored(v) <==> InRange(v) && Denotes(s, v)
    ensures Scanned(s) == Failed(EBADINT) <==> !IsArgument(s)
  {
    if Denotes(s, v) {
      var a: Argument :| a.Proper() && a.Text() == s && a.Number() * a.size == v;
      ArgumentReads(a);
    }
    if IsArgument(s) {
      var a: Argument :| a.Proper() && a.Text() == s;
      ArgumentReads(a);
    }
    if Scanned(s) != Failed(EBADINT) {
      var a := ReadAsArgument(s);
    }
  }

  lemma ReadAsArgument(s: string) returns (a: Argument)
    requires Scanned(s) != Failed(EBADINT)
    ensures a.Proper() && a.Text() == s && IsArgument(s)
    ensures Scanned(s) == Scaled(a.Number(), Some(a.size))
    ensures forall v :: Scanned(s) == Stored(v) ==> Denotes(s, v)
  {
    a := ArgumentForm(s);
    ArgumentReads(a);
  }

  /** The arguments "0x 5", "0x0x5" and "-0x-5" are all 5. */
  lemma LooseNumbers(zerox: string, blank: string, minus: string, five: string)
    requires zerox == "0x" && blank == " " && minus == "-" && five == "5"
    ensures Scanned(zerox + (blank + five)) == Stored(5) && Scanned(zerox + (zerox + five)) == Stored(5)
    ensures Scanned(minus + (zerox + (minus + five))) == Stored(5)
  {
    assert five[..0] == "" && Value(five, 16) == 5;
    Empties(zerox, blank, minus, five);
    Loose("", zerox, Literal(blank, "", "", five), zerox + (blank + five));
    Loose("", zerox, Literal("", "", zerox, five), zerox + (zerox + five));
    Loose(minus, zerox, Literal("", minus, "", five), minus + (zerox + (minus + five)));
  }

  lemma Empties(p: string, b: string, g: string, n: string)
    ensures p + (b + n) == "" + (p + (b + ("" + ("" + n))))
    ensures p + (p + n) == "" + (p + ("" + ("" + (p + n))))
    ensures g + (p + (g + n)) == g + (p + ("" + (g + ("" + n))))
  {}

  lemma Loose(sign: string, prefix: string, l: Literal, s: string)
    requires Sign(sign) && PrefixFor(prefix, 16) && l.Proper(16)
    requires s == sign + (prefix + (l.blanks + (l.sign + (l.hex + l.num))))
    ensures Scanned(s) == Scaled(Factor(sign) * l.Number(16), Some(1))
  {
    var a := Argument("", sign, prefix, l, "", "", 16, 1);
    assert l.Text() + ("" + "") == l.Text() && a.Text() == sign + (prefix + l.Text());
    ArgumentReads(a);
  }
}
