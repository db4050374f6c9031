/** A leading '+' or '-' of the option string (libargtable/getopt.c).

    The call that initialises the scanner skips it; every later call is given the option string again
    and reads the sign as the first option letter. */
module LeadingSign {
  import opened Common
  import opened OptionSyntax

  predicate Signed(letters: string) { At(letters, 0) == '+' || At(letters, 0) == '-' }

  // ---- One report ------------------------------------------------------------------------

  /** What the letter at k takes: no argument (0), one (1), or perhaps one (2). */
  function Arity(letters: string, k: nat): int {
    if At(letters, k + 1) != ':' then 0 else if At(letters, k + 2) == ':' then 2 else 1
  }

  /** The report for the letter is that its argument is missing. */
  predicate Lacks(letters: string, text: string, next: Option<string>)
    requires text != ""
  {
    var k := IndexOf(letters, text[0]);
    k < |letters| && text[0] != ':' && Arity(letters, k) == 1 && |text| == 1 && next.None?
  }

  /** The same report with and without the sign among the letters: for another letter, unless its argument
      is missing and a colon follows the sign; for the sign itself, if it is a letter anyway and takes an
      argument in the same way here, or if it is not and its argument is missing. */
  predicate SameShort(letters: string, text: string, next: Option<string>)
    requires Signed(letters) && text != ""
  {
    if text[0] != letters[0] then
      !(Lacks(letters, text, next) && At(letters, 1) == ':')
    else
      var k := IndexOf(letters[1..], text[0]);
      var a, b := Arity(letters, 0), Arity(letters[1..], k);
      if k == |letters| - 1 then Lacks(letters, text, next)
      else if |text| > 1 then a == 0 <==> b == 0
      else if a == 1 || b == 1 then a == b && next.Some?
      else true
  }

  lemma ShortAgrees(letters: string, text: string, next: Option<string>)
    requires Signed(letters) && text != ""
    ensures ShortEvent(letters, text, next) == ShortEvent(letters[1..], text, next) <==> SameShort(letters, text, next)
    ensures ShortEvent(letters, text, next).0 == ShortEvent(letters[1..], text, next).0
       <==> SameShort(letters, text, next)
  {
    var k := IndexOf(letters[1..], text[0]);
    assert At(letters[1..], k + 1) == At(letters, k + 2) && At(letters[1..], k + 2) == At(letters, k + 3);
    assert At(letters[1..], 0) == At(letters, 1);
    if |text| == 1 {
      assert text[1..] == "";
    }
  }

  /** The report for the long option is that its argument is missing. */
  ghost predicate LacksLong(cfg: Config, text: string, next: Option<string>)
    requires cfg.longopts.Some?
  {
    var m := Meaning(cfg.longopts.value, text[..NameEnd(text)]);
    m.Known? && NameEnd(text) == |text| && cfg.longopts.value[m.index].hasArg == 1 && next.None?
  }

  ghost predicate SameLong(cfg: Config, text: string, next: Option<string>)
    requires cfg.longopts.Some?
  {
    !(LacksLong(cfg, text, next) && At(cfg.optstring, 1) == ':')
  }

  function Steady(cfg: Config): Config { cfg.(steady := true) }

  lemma LongAgrees(cfg: Config, text: string, next: Option<string>)
    requires Signed(cfg.optstring) && cfg.longopts.Some?
    ensures var r := LongEvent(cfg, cfg.optstring, text, next);
            var r' := LongEvent(Steady(cfg), cfg.optstring[1..], text, next);
            (r == r' <==> SameLong(cfg, text, next)) && (r.0 == r'.0 <==> SameLong(cfg, text, next))
  {
    assert At(cfg.optstring[1..], 0) == At(cfg.optstring, 1);
  }

  // ---- Whole scans -----------------------------------------------------------------------

  /** No report from position i on is changed by the sign, which the first one does not see. */
  ghost predicate SameFrom(cfg: Config, args: seq<string>, i: nat, first: bool)
    requires Signed(cfg.optstring) && i <= |args|
    decreases |args| - i, 1, 0
  {
    if i == |args| || args[i] == "--" then true
    else if IsOperand(args[i]) then
      OrderingOf(cfg).RequireOrder? || SameFrom(cfg, args, i + 1, false)
    else if IsLong(cfg, args[i]) then
      var takesNext := LongEvent(cfg, Letters(cfg, first), args[i][2..], Argument(args, i + 1)).1;
      && (first || SameLong(cfg, args[i][2..], Argument(args, i + 1)))
      && SameFrom(cfg, args, if takesNext then i + 2 else i + 1, false)
    else SameCluster(cfg, args, i, args[i][1..], first)
  }

  ghost predicate SameCluster(cfg: Config, args: seq<string>, i: nat, text: string, first: bool)
    requires Signed(cfg.optstring) && i < |args| && text != ""
    decreases |args| - i, 0, |text|
  {
    var (e, rest, takesNext) := ShortEvent(Letters(cfg, first), text, Argument(args, i + 1));
    && (first || SameShort(cfg.optstring, text, Argument(args, i + 1)))
    && if rest != "" then SameCluster(cfg, args, i, rest, false)
       else SameFrom(cfg, args, if takesNext then i + 2 else i + 1, false)
  }

  /** r and r' are the same exactly if `same` says so, and can be told apart by their reports.  The definition
      only unfolds where a proof mentions Unfold. */
  ghost predicate Agree(r: Parsed, r': Parsed, same: bool) {
    forall n {:trigger Unfold(n)} :: Unfold(n) ==> (same ==> r == r') && (r.events == r'.events ==> same)
  }

  lemma AgreeSame(r: Parsed)
    ensures Agree(r, r, true)
  {}

  lemma AgreeReport(e: Event, options: seq<string>, r: Parsed, r': Parsed, same: bool)
    requires Agree(r, r', same)
    ensures Agree(Report(e, options, r), Report(e, options, r'), same)
  {
    assert Unfold(0);
    var f := e.(last := Last(options));
    assert ([f] + r.events)[1..] == r.events && ([f] + r'.events)[1..] == r'.events;
  }

  lemma DifferentReports(e: Event, options: seq<string>, r: Parsed, e': Event, options': seq<string>, r': Parsed)
    requires e != e' && e.last == e'.last
    ensures Agree(Report(e, options, r), Report(e', options', r'), false)
  {
    var f, f' := e.(last := Last(options)), e'.(last := Last(options'));
    assert f.(last := None) == e.(last := None) && f'.(last := None) == e'.(last := None);
    assert ([f] + r.events)[0] == f && ([f'] + r'.events)[0] == f';
  }

  /** getopt reads a command line as if the sign were no letter exactly if none of its reports is one that
      the sign changes. */
  lemma ScanAgrees(cfg: Config, args: seq<string>, i: nat, first: bool)
    requires Signed(cfg.optstring) && !cfg.steady && i <= |args|
    ensures SameFrom(cfg, args, i, first) ==> Parse(cfg, args, i, first) == Parse(Steady(cfg), args, i, first)
    ensures Parse(cfg, args, i, first).events == Parse(Steady(cfg), args, i, first).events ==>
              SameFrom(cfg, args, i, first)
  {
    FromAgrees(cfg, args, i, first);
    assert Unfold(0);
  }

  lemma {:induction false} FromAgrees(cfg: Config, args: seq<string>, i: nat, first: bool)
    requires Signed(cfg.optstring) && !cfg.steady && i <= |args|
    ensures Agree(Parse(cfg, args, i, first), Parse(Steady(cfg), args, i, first), SameFrom(cfg, args, i, first))
    decreases |args| - i, 1, 0
  {
    if i == |args| || args[i] == "--" || (IsOperand(args[i]) && OrderingOf(cfg).RequireOrder?) {
      AgreeSame(Parse(cfg, args, i, first));
    } else if IsOperand(args[i]) {
      FromAgrees(cfg, args, i + 1, false);
      AgreeReport(Plain(1, Some(args[i])), [args[i]], Parse(cfg, args, i + 1, false),
                  Parse(Steady(cfg), args, i + 1, false), SameFrom(cfg, args, i + 1, false));
    } else if IsLong(cfg, args[i]) {
      LongFromAgrees(cfg, args, i, first);
    } else {
      ClusterAgrees(cfg, args, i, args[i][1..], first);
    }
  }

  /** A long option with its report e and, from n on, what follows. */
  lemma LongParse(cfg: Config, args: seq<string>, i: nat, first: bool) returns (e: Event, n: nat)
    requires i < |args| && args[i] != "--" && !IsOperand(args[i]) && IsLong(cfg, args[i])
    ensures (n == i + 1 || n == i + 2) && n <= |args| && e.last == None
    ensures LongEvent(cfg, Letters(cfg, first), args[i][2..], Argument(args, i + 1)) == (e, n == i + 2)
    ensures Parse(cfg, args, i, first) == Report(e, args[i..n], Parse(cfg, args, n, false))
  {
    var r := LongEvent(cfg, Letters(cfg, first), args[i][2..], Argument(args, i + 1));
    e, n := r.0, if r.1 then i + 2 else i + 1;
  }

  lemma {:induction false} LongFromAgrees(cfg: Config, args: seq<string>, i: nat, first: bool)
    requires Signed(cfg.optstring) && !cfg.steady && i < |args|
    requires args[i] != "--" && !IsOperand(args[i]) && IsLong(cfg, args[i])
    ensures Agree(Parse(cfg, args, i, first), Parse(Steady(cfg), args, i, first), SameFrom(cfg, args, i, first))
    decreases |args| - i, 0, |args[i]|
  {
    var text, next := args[i][2..], Argument(args, i + 1);
    var e, n := LongParse(cfg, args, i, first);
    var e', n' := LongParse(Steady(cfg), args, i, first);
    LongReports(cfg, text, next, first);
    LongSame(cfg, args, i, first, e, n);
    if e == e' {
      assert n == n';
      FromAgrees(cfg, args, n, false);
      AgreeReport(e, args[i..n], Parse(cfg, args, n, false), Parse(Steady(cfg), args, n, false),
                  SameFrom(cfg, args, n, false));
    } else {
      DifferentReports(e, args[i..n], Parse(cfg, args, n, false), e', args[i..n'], Parse(Steady(cfg), args, n', false));
    }
  }

  lemma LongSame(cfg: Config, args: seq<string>, i: nat, first: bool, e: Event, n: nat)
    requires Signed(cfg.optstring) && i < |args|
    requires args[i] != "--" && !IsOperand(args[i]) && IsLong(cfg, args[i])
    requires (n == i + 1 || n == i + 2) && n <= |args|
    requires LongEvent(cfg, Letters(cfg, first), args[i][2..], Argument(args, i + 1)) == (e, n == i + 2)
    ensures SameFrom(cfg, args, i, first)
       <==> (first || SameLong(cfg, args[i][2..], Argument(args, i + 1))) && SameFrom(cfg, args, n, false)
  {}

  lemma LongReports(cfg: Config, text: string, next: Option<string>, first: bool)
    requires Signed(cfg.optstring) && !cfg.steady && cfg.longopts.Some?
    ensures var r := LongEvent(cfg, Letters(cfg, first), text, next);
            var r' := LongEvent(Steady(cfg), Letters(Steady(cfg), first), text, next);
            (r == r' <==> first || SameLong(cfg, text, next)) && (r.0 == r'.0 <==> first || SameLong(cfg, text, next))
  {
    if !first {
      LongAgrees(cfg, text, next);
    }
  }

  lemma {:induction false} ClusterAgrees(cfg: Config, args: seq<string>, i: nat, text: string, first: bool)
    requires Signed(cfg.optstring) && !cfg.steady && i < |args| && text != ""
    ensures Agree(ParseCluster(cfg, args, i, text, first), ParseCluster(Steady(cfg), args, i, text, first),
                  SameCluster(cfg, args, i, text, first))
    decreases |args| - i, 0, 2 * |text|
  {
    var next := Argument(args, i + 1);
    var (e, rest, takesNext) := ShortEvent(Letters(cfg, first), text, next);
    var (e', rest', takesNext') := ShortEvent(cfg.optstring[1..], text, next);
    var n, n' := if takesNext then i + 2 else i + 1, if takesNext' then i + 2 else i + 1;
    ShortReports(cfg, text, next, first);
    ClusterStep(cfg, args, i, text, first, e, rest, n);
    ClusterStep(Steady(cfg), args, i, text, first, e', rest', n');
    if e == e' {
      assert rest == rest' && takesNext == takesNext';
      MoreAgrees(cfg, args, i, text, first, e, rest, n);
    } else {
      DifferentReports(e, if rest != "" then [] else args[i..n], ClusterRest(cfg, args, i, rest, n),
                       e', if rest' != "" then [] else args[i..n'], ClusterRest(Steady(cfg), args, i, rest', n'));
    }
  }

  /** What follows a short option. */
  ghost function ClusterRest(cfg: Config, args: seq<string>, i: nat, rest: string, n: nat): Parsed
    requires i < |args| && n <= |args|
  {
    if rest != "" then ParseCluster(cfg, args, i, rest, false) else Parse(cfg, args, n, false)
  }

  lemma ClusterStep(cfg: Config, args: seq<string>, i: nat, text: string, first: bool, e: Event, rest: string, n: nat)
    requires i < |args| && text != ""
    requires var r := ShortEvent(Letters(cfg, first), text, Argument(args, i + 1));
             r.0 == e && r.1 == rest && n == if r.2 then i + 2 else i + 1
    ensures n <= |args| && e.last == None
    ensures ParseCluster(cfg, args, i, text, first)
         == Report(e, if rest != "" then [] else args[i..n], ClusterRest(cfg, args, i, rest, n))
  {}

  lemma {:induction false} MoreAgrees(cfg: Config, args: seq<string>, i: nat, text: string, first: bool, e: Event,
                                      rest: string, n: nat)
    requires Signed(cfg.optstring) && !cfg.steady && i < n <= |args| && |rest| < |text|
    requires SameCluster(cfg, args, i, text, first)
        <==> if rest != "" then SameCluster(cfg, args, i, rest, false) else SameFrom(cfg, args, n, false)
    ensures Agree(Report(e, if rest != "" then [] else args[i..n], ClusterRest(cfg, args, i, rest, n)),
                  Report(e, if rest != "" then [] else args[i..n], ClusterRest(Steady(cfg), args, i, rest, n)),
                  SameCluster(cfg, args, i, text, first))
    decreases |args| - i, 0, 2 * |rest| + 1
  {
    if rest != "" {
      ClusterAgrees(cfg, args, i, rest, false);
    } else {
      FromAgrees(cfg, args, n, false);
    }
    AgreeReport(e, if rest != "" then [] else args[i..n], ClusterRest(cfg, args, i, rest, n),
                ClusterRest(Steady(cfg), args, i, rest, n), SameCluster(cfg, args, i, text, first));
  }

  lemma ShortReports(cfg: Config, text: string, next: Option<string>, first: bool)
    requires Signed(cfg.optstring) && !cfg.steady && text != ""
    ensures var r, r' := ShortEvent(Letters(cfg, first), text, next), ShortEvent(cfg.optstring[1..], text, next);
            && (r == r' <==> first || SameShort(cfg.optstring, text, next))
            && (r.0 == r'.0 <==> first || SameShort(cfg.optstring, text, next))
  {
    if !first {
      ShortAgrees(cfg.optstring, text, next);
    }
  }

  // ---- Command lines on which it matters -------------------------------------------------

  /** The argument is no cluster with the sign among its letters. */
  predicate NotIn(cfg: Config, arg: string)
    requires Signed(cfg.optstring)
  {
    IsOperand(arg) || IsLong(cfg, arg) || cfg.optstring[0] !in arg[1..]
  }

  /** A sign that is not followed by a colon does no harm on a command line without it in a cluster. */
  lemma {:induction false} HarmlessSign(cfg: Config, args: seq<string>, i: nat, first: bool)
    requires Signed(cfg.optstring) && At(cfg.optstring, 1) != ':' && i <= |args|
    requires forall k :: 0 <= k < |args| ==> NotIn(cfg, args[k])
    ensures SameFrom(cfg, args, i, first)
    decreases |args| - i, 1, 0
  {
    if i < |args| && args[i] != "--" {
      if IsOperand(args[i]) {
        HarmlessSign(cfg, args, i + 1, false);
      } else if IsLong(cfg, args[i]) {
        var takesNext := LongEvent(cfg, Letters(cfg, first), args[i][2..], Argument(args, i + 1)).1;
        HarmlessSign(cfg, args, if takesNext then i + 2 else i + 1, false);
      } else {
        HarmlessInCluster(cfg, args, i, args[i][1..], first);
      }
    }
  }

  lemma {:induction false} HarmlessInCluster(cfg: Config, args: seq<string>, i: nat, text: string, first: bool)
    requires Signed(cfg.optstring) && At(cfg.optstring, 1) != ':' && i < |args| && text != ""
    requires forall k :: 0 <= k < |args| ==> NotIn(cfg, args[k])
    requires cfg.optstring[0] !in text
    ensures SameCluster(cfg, args, i, text, first)
    decreases |args| - i, 0, |text|
  {
    var (e, rest, takesNext) := ShortEvent(Letters(cfg, first), text, Argument(args, i + 1));
    assert text[0] in text;
    if rest != "" {
      assert rest == text[1..];
      HarmlessInCluster(cfg, args, i, rest, false);
    } else {
      HarmlessSign(cfg, args, if takesNext then i + 2 else i + 1, false);
    }
  }

  /** On the command line -:c, where the colon is unknown to every option string, the second report is
      changed exactly as SameShort says; so every option string with a sign that is no letter is misread
      on some command line, and so is every one with a colon after the sign and a letter with an argument. */
  lemma SecondLetter(cfg: Config, c: char)
    requires Signed(cfg.optstring) && !cfg.steady
    ensures Parse(cfg, ["-:" + [c]], 0, true) == Parse(Steady(cfg), ["-:" + [c]], 0, true)
            <==> SameShort(cfg.optstring, [c], None)
  {
    var args := ["-:" + [c]];
    assert args[0][1..] == ":" + [c] && (":" + [c])[1..] == [c];
    ScanAgrees(cfg, args, 0, true);
    assert SameFrom(cfg, args, 1, false);
    assert ShortEvent(Letters(cfg, true), ":" + [c], None).1 == [c];
    assert !IsOperand(args[0]) && !IsLong(cfg, args[0]) && args[0] != "--";
    assert Argument(args, 1) == None;
    assert SameCluster(cfg, args, 0, [c], false) <==> SameShort(cfg.optstring, [c], None);
    assert SameCluster(cfg, args, 0, ":" + [c], true) <==> SameCluster(cfg, args, 0, [c], false);
    assert SameFrom(cfg, args, 0, true) <==> SameCluster(cfg, args, 0, args[0][1..], true);
  }

  function Letter(c: char, last: string): Event { Plain(c as int, None).(last := Some(last)) }

  function Refused(code: int, c: char, last: string): Event { Complaint(code, c as int).(last := Some(last)) }

  /** The letters are a and b, but the second call takes + for a letter too. */
  lemma PlusIsLetter()
    ensures var cfg := Config("+ab", None, false, false);
            && Parse(cfg, ["-a", "-+"], 0, true).events == [Letter('a', "-a"), Letter('+', "-+")]
            && Parse(Steady(cfg), ["-a", "-+"], 0, true).events == [Letter('a', "-a"), Refused(QUESTION, '+', "-+")]
  {
    var cfg, args := Config("+ab", None, false, false), ["-a", "-+"];
    assert args[0][1..] == "a" && args[1][1..] == "+" && "a"[1..] == "" && "+"[1..] == "";
    assert args[0..1] == ["-a"] && args[1..2] == ["-+"];
    assert IndexOf("ab"[1..], '+') == 1;
    assert Parse(cfg, args, 2, false).events == [] && Parse(Steady(cfg), args, 2, false).events == [];
    assert Parse(cfg, args, 1, false).events == [Letter('+', "-+")];
    assert Parse(Steady(cfg), args, 1, false).events == [Refused(QUESTION, '+', "-+")];
  }

  /** A colon after the sign asks for : when an argument is missing, but the second call returns ?. */
  lemma ColonIsLost()
    ensures var cfg := Config("+:a:", None, false, false);
            && Parse(cfg, ["-ax", "-a"], 0, true).events[1..] == [Refused(QUESTION, 'a', "-a")]
            && Parse(Steady(cfg), ["-ax", "-a"], 0, true).events[1..] == [Refused(COLON, 'a', "-a")]
  {
    var cfg, args := Config("+:a:", None, false, false), ["-ax", "-a"];
    assert args[0][1..] == "ax" && args[1][1..] == "a" && "a"[1..] == "" && "ax"[1..] == "x";
    assert args[1..2] == ["-a"];
    assert Parse(cfg, args, 2, false).events == [] && Parse(Steady(cfg), args, 2, false).events == [];
    assert "+:a:"[1..] == ":a:" && ":a:"[1..] == "a:" && IndexOf("a:", 'a') == 0;
    assert IndexOf(":a:", 'a') == 1 && IndexOf("+:a:", 'a') == 2;
    assert Parse(cfg, args, 1, false).events == [Refused(QUESTION, 'a', "-a")];
    assert Parse(Steady(cfg), args, 1, false).events == [Refused(COLON, 'a', "-a")];
  }
}
