/** The resumable scanner of libargtable/getopt.c, which permutes argv while it parses. */
module Getopt {
  import opened Common
  import opened OptionSyntax
  import OptionLines
  import opened Exchange

  /** How the search for the next argv element ends: the scan is over, an operand is reported as
      such, or argv[optind] is an option. */
  datatype Advanced = Ended | Operand | AtOption

  /** The globals of getopt.c together with the argv they describe.  optind == 0 asks for
      initialisation, as arg_parse_tagged does before its scan. */
  class Scanner {
    const cfg: Config
    const argv: array<string>
    var optind: int
    var nextchar: string
    var firstNonopt: int
    var lastNonopt: int
    var ordering: Ordering
    var optarg: Option<string>
    var optopt: int
    var longind: int
    var flagval: int

    ghost const args: seq<string>          // argv as it was at the start
    ghost var options: seq<string>         // scanned so far: options and their arguments
    ghost var operands: seq<string>        // scanned so far: operands
    ghost var rest: Parsed                 // what parsing the remaining arguments yields
    ghost var started: bool                // something has been reported
    ghost var finished: bool

    constructor (cfg0: Config, argv0: array<string>)
      requires Supported(cfg0) && argv0.Length >= 1
      ensures Valid() && !finished && optind == 0 && cfg == cfg0 && argv == argv0 && args == argv0[..]
    {
      cfg, argv, args := cfg0, argv0, argv0[..];
      optind, nextchar, firstNonopt, lastNonopt := 0, "", 0, 0;
      ordering, optarg, optopt, longind, flagval := Permute, None, QUESTION, 0, 0;
      options, operands, started, finished := [argv0[0]], [], false, false;
      rest := Parse(cfg0, argv0[..], 1, true);
      new;
      ParsesIntro(cfg, args, 1, "", true);
    }

    /** Before the first call, or between two calls. */
    ghost predicate Valid()
      reads this, argv
    {
      && Supported(cfg) && argv.Length == |args| >= 1
      && (if optind == 0 then
            !started && argv[..] == args && options == [args[0]] && operands == [] && nextchar == ""
          else
            started && Scanning())
      && Parses(cfg, args, if optind == 0 then 1 else optind, nextchar, !started, rest)
    }

    /** Arguments already scanned lie before optind: first the options of earlier rounds, then the
        operands skipped so far, then the options found after them. */
    ghost predicate Layout()
      reads this`firstNonopt, this`lastNonopt, this`optind, this`options, this`operands, argv
    {
      && argv.Length == |args|
      && 1 <= firstNonopt <= lastNonopt <= optind <= argv.Length
      && Divided(argv[..], args, firstNonopt, lastNonopt, optind, options, operands)
    }

    ghost predicate Scanning()
      reads this`firstNonopt, this`lastNonopt, this`optind, this`options, this`operands, argv
      reads this`ordering, this`nextchar, this`started
    {
      && Layout()
      && ordering == OrderingOf(cfg)
      && (ordering != Permute ==> firstNonopt == lastNonopt)
      && (nextchar != "" ==> started && optind < |args| && !IsLong(cfg, args[optind]))
    }

    ghost predicate Ready()
      reads this`firstNonopt, this`lastNonopt, this`optind, this`options, this`operands, argv
      reads this`ordering, this`nextchar, this`started, this`rest
    {
      Scanning() && nextchar == "" && Parses(cfg, args, optind, "", !started, rest)
    }

    /** What is still to be reported, and how all arguments will be divided in the end. */
    ghost function Outcome(): Parsed
      reads this`options, this`operands, this`rest
    {
      Parsed(rest.events, options + rest.options, operands + rest.operands)
    }

    /** exchange(): options found after skipped operands move in front of them. */
    method ExchangeArgs()
      requires Layout()
      modifies this`firstNonopt, this`lastNonopt, argv
      ensures Layout() && lastNonopt == optind
    {
      DividedExchange(argv[..], args, firstNonopt, lastNonopt, optind, options, operands);
      ExchangeParts(argv, firstNonopt, lastNonopt, optind);
      firstNonopt := firstNonopt + (optind - lastNonopt);
      lastNonopt := optind;
    }

    /** The first half of the PERMUTE branch: options found after operands are exchanged with them,
        so that the operands skipped so far end at optind. */
    method Settle()
      requires Layout()
      modifies this`firstNonopt, this`lastNonopt, argv
      ensures Layout() && lastNonopt == optind
    {
      if firstNonopt != lastNonopt && lastNonopt != optind {
        ExchangeArgs();
      } else {
        DividedEmpty(argv[..], args, firstNonopt, lastNonopt, optind, options, operands);
        if lastNonopt != optind {
          firstNonopt := optind;
        }
        lastNonopt := optind;
      }
    }

    /** The arguments not yet reached are where they were. */
    lemma NotMovedYet()
      requires Layout() && optind < argv.Length
      ensures args[optind] == argv[optind] && Argument(args, optind + 1) == NextArgument()
      ensures argv[optind + 1..] == args[optind + 1..]
    {
      DividedAhead(argv[..], args, firstNonopt, lastNonopt, optind, optind + 1, options, operands);
    }

    /** The argument after argv[optind], if there is one. */
    function NextArgument(): Option<string>
      requires 0 <= optind < argv.Length
      reads this`optind, argv
    {
      if optind + 1 < argv.Length then Some(argv[optind + 1]) else None
    }

    /** The second half: skip operands. */
    method SkipOperands()
      requires Ready() && ordering == Permute && lastNonopt == optind
      modifies this`optind, this`lastNonopt, this`operands, this`rest
      ensures Ready() && lastNonopt == optind && (optind < argv.Length ==> !IsOperand(argv[optind]))
      ensures Outcome() == old(Outcome())
    {
      while optind < argv.Length && IsOperand(argv[optind])
        invariant Ready() && lastNonopt == optind && Outcome() == old(Outcome())
        decreases argv.Length - optind
      {
        SkipOperand();
      }
    }

    /** Its body. */
    method SkipOperand()
      requires Ready() && ordering == Permute && lastNonopt == optind < argv.Length && IsOperand(argv[optind])
      modifies this`optind, this`lastNonopt, this`operands, this`rest
      ensures Ready() && lastNonopt == optind == old(optind) + 1 && Outcome() == old(Outcome())
    {
      NotMovedYet();
      ghost var r := SkipStep(cfg, args, optind, !started, rest);
      Associative(operands, [argv[optind]], r.operands);
      DividedOperand(argv[..], args, firstNonopt, optind, optind + 1, options, operands);
      operands, rest := operands + [argv[optind]], r;
      optind := optind + 1;
      lastNonopt := optind;
    }

    /** The final state: every argument is in place and optind is the index of the first operand. */
    ghost predicate Final(r: Parsed)
      reads this`optind, argv
    {
      argv[..] == r.options + r.operands && optind == |r.options|
    }

    /** "--" is taken as an option: exchange it with the operands skipped so far. */
    method TakeDashes()
      requires Layout() && optind < argv.Length && argv[optind] == "--"
      modifies this`optind, this`firstNonopt, this`lastNonopt, this`options, argv
      ensures Layout() && options == old(options) + ["--"] && optind == old(optind) + 1 && lastNonopt == optind
    {
      NotMovedYet();
      DividedTake(argv[..], args, firstNonopt, lastNonopt, optind, optind + 1, options, operands);
      assert args[optind..optind + 1] == ["--"];
      options := options + ["--"];
      optind := optind + 1;
      if firstNonopt != lastNonopt && lastNonopt != optind {
        ExchangeArgs();
      } else if firstNonopt == lastNonopt {
        DividedEmpty(argv[..], args, firstNonopt, lastNonopt, optind, options, operands);
        firstNonopt := optind;
        lastNonopt := optind;
      }
    }

    /** The scan ends with "--": everything after it is an operand. */
    method EndAtDashes()
      requires Ready() && optind < argv.Length && argv[optind] == "--"
      modifies this`optind, this`firstNonopt, this`lastNonopt, this`options, argv
      ensures optind == argv.Length && 1 <= firstNonopt <= lastNonopt == argv.Length
      ensures rest.events == [] && firstNonopt == |old(Outcome()).options|
      ensures argv[..] == old(Outcome()).options + old(Outcome()).operands
    {
      NotMovedYet();
      EndStep(cfg, args, optind, !started, rest);
      TakeDashes();
      DividedParts(argv[..], args, firstNonopt, lastNonopt, optind, options, operands);
      lastNonopt := argv.Length;
      optind := argv.Length;
    }

    lemma ArgumentsExhausted()
      requires Ready() && optind == argv.Length
      requires firstNonopt == lastNonopt || lastNonopt == optind
      ensures rest.events == [] && argv[..] == Outcome().options + Outcome().operands
      ensures |Outcome().options| == if firstNonopt != lastNonopt then firstNonopt else optind
    {
      EndStep(cfg, args, optind, !started, rest);
      DividedParts(argv[..], args, firstNonopt, lastNonopt, optind, options, operands);
      assert options + [] == options && operands + [] == operands;
    }

    lemma StopAtOperand()
      requires Ready() && optind < argv.Length && IsOperand(argv[optind]) && ordering == RequireOrder
      ensures Final(Outcome()) && rest.events == []
    {
      NotMovedYet();
      EndStep(cfg, args, optind, !started, rest);
      DividedParts(argv[..], args, firstNonopt, lastNonopt, optind, options, operands);
      assert options + [] == options;
    }

    /** RETURN_IN_ORDER: an operand is reported as the argument of option 1. */
    method ReportOperand()
      requires Ready() && optind < argv.Length && IsOperand(argv[optind]) && ordering == ReturnInOrder
      modifies this`optind, this`optarg, this`options, this`started, this`rest
      ensures Ready() && started
      ensures optind >= 1 && old(Outcome()) == Before(Plain(1, optarg).(last := Some(argv[optind - 1])), Outcome())
    {
      NotMovedYet();
      optarg := Some(argv[optind]);
      ghost var r := OperandStep(cfg, args, optind, !started, rest);
      Associative(options, [argv[optind]], r.options);
      DividedTake(argv[..], args, firstNonopt, lastNonopt, optind, optind + 1, options, operands);
      assert args[optind..optind + 1] == [argv[optind]];
      options, rest := options + [argv[optind]], r;
      optind := optind + 1;
      started := true;
    }

    /** Advance to the next argv element. */
    method Advance() returns (a: Advanced)
      requires Ready()
      modifies this`optind, this`firstNonopt, this`lastNonopt, this`optarg, this`started, argv
      modifies this`options, this`operands, this`rest
      ensures a.Ended? ==> Final(old(Outcome())) && old(Outcome()).events == []
      ensures !a.Ended? ==> Ready()
      ensures a.Operand? ==>
                && started && optind >= 1
                && old(Outcome()) == Before(Plain(1, optarg).(last := Some(argv[optind - 1])), Outcome())
      ensures a.AtOption? ==> optarg == old(optarg) && started == old(started) && Outcome() == old(Outcome())
      ensures a.AtOption? ==> optind < argv.Length && !IsOperand(argv[optind]) && argv[optind] != "--"
    {
      if ordering == Permute {
        Settle();
        SkipOperands();
      }
      if optind != argv.Length && argv[optind] == "--" {
        EndAtDashes();
      } else if optind == argv.Length {
        ArgumentsExhausted();
      }
      if optind == argv.Length {
        if firstNonopt != lastNonopt {
          optind := firstNonopt;
        }
        return Ended;
      }
      if IsOperand(argv[optind]) {
        if ordering == RequireOrder {
          StopAtOperand();
          return Ended;
        }
        ReportOperand();
        return Operand;
      }
      return AtOption;
    }

    /** The globals show the report e; what e does not write keeps its value. */
    ghost predicate Shows(e: Event, code: int, optopt0: int, longind0: int, flagval0: int)
      reads this
    {
      && code == e.code && optarg == e.optarg && optopt == Or(e.optopt, optopt0)
      && longind == Or(e.longind, longind0) && flagval == Or(e.flagval, flagval0)
    }

    /** The last argument that the report consumes, if any, is in front of optind. */
    ghost predicate AtLast(e: Event)
      reads this`optind, argv
    {
      e.last.Some? ==> 1 <= optind <= argv.Length && argv[optind - 1] == e.last.value
    }

    /** Move past n arguments that belong to an option, up to i, with the letters `text` still unread;
        `r` is what the arguments after that parse to. */
    method Take(n: nat, ghost i: nat, text: string, ghost r: Parsed)
      requires Scanning() && nextchar == "" && optind + n == i <= argv.Length
      requires text != "" ==> n == 0 && optind < |args| && !IsLong(cfg, args[optind])
      requires Parses(cfg, args, i, text, false, r)
      modifies this`optind, this`nextchar, this`options, this`started, this`rest
      ensures Scanning() && started && Parses(cfg, args, optind, nextchar, false, rest)
      ensures AtLast(Plain(0, None).(last := Last(args[old(optind)..i])))
      ensures Outcome() == Parsed(r.events, old(options) + args[old(optind)..i] + r.options, operands + r.operands)
    {
      DividedTake(argv[..], args, firstNonopt, lastNonopt, optind, i, options, operands);
      options, rest := options + args[optind..i], r;
      optind := optind + n;
      nextchar := text;
      started := true;
    }

    /** The decisions of the long-option branch for the element "--" + text.  `n` is the number of
        argv elements by which the branch moves optind. */
    method DecodeLong(letters: string, text: string, next: Option<string>) returns (code: int, n: nat)
      requires Supported(cfg) && cfg.longopts.Some? && optarg == None
      modifies this`optarg, this`optopt, this`longind, this`flagval
      ensures var (e, takesNext) := LongEvent(cfg, letters, text, next);
        && Shows(e, code, old(optopt), old(longind), old(flagval))
        && code != -1 && n == if takesNext then 2 else 1
    {
      var os := cfg.longopts.value;
      var nameend := NameEndOf(text);
      var m := FindLong(os, text[..nameend]);
      MeansUnique(os, text[..nameend], m, Meaning(os, text[..nameend]));
      n := 1;
      if m.Ambiguous? || m.Unknown? {
        optopt := 0;
        return QUESTION, n;
      }
      var o := os[m.index];
      assert o in os;
      if nameend < |text| {
        if o.hasArg == 0 {
          optopt := o.val;
          return QUESTION, n;
        }
        optarg := Some(text[nameend + 1..]);
      } else if o.hasArg == 1 {
        if next.None? {
          optopt := o.val;
          return Missing(letters), n;
        }
        optarg := next;
        n := 2;
      }
      longind := m.index;
      if o.hasFlag {
        flagval := o.val;
        return 0, n;
      }
      return o.val, n;
    }

    /** The decisions of the short-option branch for the unread letters `text`: what is left of
        them afterwards, and by how many argv elements optind moves. */
    method DecodeShort(letters: string, text: string, next: Option<string>)
      returns (code: int, rest: string, n: nat)
      requires text != "" && optarg == None
      modifies this`optarg, this`optopt
      ensures var (e, left, takesNext) := ShortEvent(letters, text, next);
        && Shows(e, code, old(optopt), old(longind), old(flagval)) && rest == left
        && code != -1 && n == if left != "" then 0 else if takesNext then 2 else 1
    {
      var c := text[0];
      rest := text[1..];
      var temp := MyIndex(letters, c);
      n := if rest == "" then 1 else 0;
      if temp == |letters| || c == ':' {
        optopt := c as int;
        return QUESTION, rest, n;
      }
      code := c as int;
      if At(letters, temp + 1) == ':' {
        if At(letters, temp + 2) == ':' {
          if rest != "" {
            optarg := Some(rest);
            n := n + 1;
          }
        } else if rest != "" {
          optarg := Some(rest);
          n := n + 1;
        } else if next.None? {
          optopt := c as int;
          code := Missing(letters);
        } else {
          optarg := next;
          n := n + 1;
        }
        rest := "";
      }
    }

    /** _getopt_initialize.  The option letters without the leading '+' or '-' are only used by the
        call that initialises. */
    method Initialize() returns (letters: string)
      requires Valid() && optind == 0
      modifies this`optind, this`nextchar, this`firstNonopt, this`lastNonopt, this`ordering
      ensures Ready() && optind == 1
      ensures letters == Letters(cfg, true)
    {
      DividedFirst(args);
      firstNonopt, lastNonopt, optind := 1, 1, 1;
      nextchar := "";
      letters := cfg.optstring;
      if At(letters, 0) == '-' {
        ordering := ReturnInOrder;
        letters := letters[1..];
      } else if At(letters, 0) == '+' {
        ordering := RequireOrder;
        letters := letters[1..];
      } else if cfg.posixlyCorrect {
        ordering := RequireOrder;
      } else {
        ordering := Permute;
      }
    }

    /** The rest of a call that has found a long option. */
    method ReportLong(letters: string) returns (code: int, ghost e: Event)
      requires Supported(cfg) && Ready() && optind < argv.Length
      requires !IsOperand(argv[optind]) && argv[optind] != "--" && IsLong(cfg, argv[optind])
      requires letters == Letters(cfg, !started) && optarg == None
      modifies this`optind, this`nextchar, this`options, this`rest
      modifies this`optarg, this`optopt, this`longind, this`flagval, this`started
      ensures Scanning() && Parses(cfg, args, optind, nextchar, false, rest) && started && code != -1
      ensures Shows(e, code, old(optopt), old(longind), old(flagval))
      ensures old(Outcome()) == Before(e, Outcome()) && AtLast(e)
    {
      NotMovedYet();
      ghost var k, i, r;
      e, k, i, r := LongStep(cfg, args, optind, !started, rest);
      TakeStep(options, operands, e, args[optind..i], r);
      var n;
      code, n := DecodeLong(letters, argv[optind][2..], NextArgument());
      e := e.(last := Last(args[optind..i]));
      Take(n, i, "", r);
    }

    /** The rest of a call that reads a short option from the unread letters `text` of the cluster
        at optind. */
    method ReportShort(letters: string, text: string) returns (code: int, ghost e: Event)
      requires Scanning() && nextchar == "" && optind < argv.Length && text != "" && !IsLong(cfg, args[optind])
      requires Parses(cfg, args, optind, text, !started, rest)
      requires letters == Letters(cfg, !started) && optarg == None
      modifies this`optind, this`options, this`rest, this`nextchar, this`optarg, this`optopt, this`started
      ensures Scanning() && Parses(cfg, args, optind, nextchar, false, rest) && started && code != -1
      ensures Shows(e, code, old(optopt), old(longind), old(flagval))
      ensures old(Outcome()) == Before(e, Outcome()) && AtLast(e)
    {
      NotMovedYet();
      ghost var k, i, r;
      e, k, i, r := ShortStep(cfg, args, optind, text, !started, rest);
      TakeStep(options, operands, e, args[optind..i], r);
      var left, n;
      code, left, n := DecodeShort(letters, text, NextArgument());
      e := e.(last := Last(args[optind..i]));
      Take(n, i, left, r);
    }

    /** The part of a call that starts a new argv element. */
    method NextElement(letters: string) returns (code: int, ghost e: Event)
      requires Supported(cfg) && Ready() && !finished
      requires letters == Letters(cfg, !started) && optarg == None
      modifies this, argv
      ensures code == -1 ==> finished && old(rest).events == [] && Final(old(Outcome()))
      ensures code != -1 ==> Scanning() && Parses(cfg, args, optind, nextchar, false, rest) && started && !finished
      ensures code != -1 ==> Shows(e, code, old(optopt), old(longind), old(flagval))
      ensures code != -1 ==> old(Outcome()) == Before(e, Outcome()) && AtLast(e)
    {
      e := Plain(1, None);
      var a := Advance();
      if a.Ended? {
        finished := true;
        return -1, e;
      }
      if a.Operand? {
        e := Plain(1, optarg).(last := Some(argv[optind - 1]));
        return 1, e;
      }
      NotMovedYet();
      if IsLong(cfg, argv[optind]) {
        code, e := ReportLong(letters);
      } else {
        EnterCluster(cfg, args, optind, !started, rest);
        code, e := ReportShort(letters, argv[optind][1..]);
      }
    }

    /** A call in the middle of a cluster of short options. */
    method ContinueCluster(letters: string) returns (code: int, ghost e: Event)
      requires Scanning() && nextchar != "" && Parses(cfg, args, optind, nextchar, !started, rest)
      requires letters == Letters(cfg, !started) && optarg == None
      modifies this`optind, this`options, this`rest, this`nextchar, this`optarg, this`optopt, this`started
      ensures Scanning() && Parses(cfg, args, optind, nextchar, false, rest) && started && code != -1
      ensures Shows(e, code, old(optopt), old(longind), old(flagval))
      ensures old(Outcome()) == Before(e, Outcome()) && AtLast(e)
    {
      var text := nextchar;
      nextchar := "";
      code, e := ReportShort(letters, text);
    }

    /** The start of every call: optarg is cleared, and the first call initialises the scanner. */
    method Begin() returns (letters: string)
      requires Valid() && !finished
      modifies this`optarg, this`optind, this`nextchar, this`firstNonopt, this`lastNonopt, this`ordering
      ensures Scanning() && Parses(cfg, args, optind, nextchar, !started, rest) && optarg == None
      ensures letters == Letters(cfg, !started)
    {
      optarg := None;
      letters := cfg.optstring;
      if optind == 0 {
        letters := Initialize();
      }
    }

    /** One call of _getopt_internal: it reports the first of the outstanding reports, or ends the
        scan with all arguments in place. */
    method Next() returns (code: int, ghost e: Event)
      requires Valid() && !finished
      modifies this, argv
      ensures code == -1 ==> finished && old(rest).events == [] && Final(old(Outcome()))
      ensures code != -1 ==> Valid() && !finished && optind != 0
      ensures code != -1 ==> Shows(e, code, old(optopt), old(longind), old(flagval))
      ensures code != -1 ==> old(Outcome()) == Before(e, Outcome()) && AtLast(e)
    {
      var letters := Begin();
      if nextchar == "" {
        code, e := NextElement(letters);
      } else {
        code, e := ContinueCluster(letters);
      }
    }

    /** The scan stands after the reports `done`: it is over, or the next report e has been returned
        and is in the globals. */
    ghost predicate Standing(whole: Parsed, done: seq<Event>, code: int, e: Event)
      reads this, argv
    {
      if code == -1 then whole.events == done && Final(whole)
      else
        && Valid() && !finished && 1 <= optind <= argv.Length
        && whole == Parsed(done + ([e] + rest.events), Outcome().options, Outcome().operands)
        && code == e.code && optarg == e.optarg
        && (e.optopt.Some? ==> optopt == e.optopt.value) && (e.flagval.Some? ==> flagval == e.flagval.value)
        && AtLast(e)
    }

    /** The first call, and a later one. */
    method FirstReport() returns (code: int, ghost e: Event)
      requires Valid() && !finished
      modifies this, argv
      ensures Standing(old(Outcome()), [], code, e)
    {
      code, e := Next();
      if code != -1 {
        assert [] + ([e] + rest.events) == [e] + rest.events;
      }
    }

    method NextReport(ghost whole: Parsed, ghost done: seq<Event>, ghost code: int, ghost e: Event)
      returns (code': int, ghost e': Event)
      requires code != -1 && Standing(whole, done, code, e)
      modifies this, argv
      ensures Standing(whole, done + [e], code', e')
    {
      code', e' := Next();
      if code' != -1 {
        Reassociate(done, e, e', rest.events);
      }
    }

    /** The caller's loop: call getopt until it returns -1. */
    method Drain() returns (codes: seq<int>, optargs: seq<Option<string>>)
      requires Valid() && !finished
      modifies this, argv
      ensures Reported(old(Outcome()).events, codes, optargs) && Final(old(Outcome()))
    {
      ghost var whole, done := Outcome(), [];
      codes, optargs := [], [];
      var code;
      ghost var e;
      code, e := FirstReport();
      while code != -1
        invariant Reported(done, codes, optargs) && Standing(whole, done, code, e)
        decreases |whole.events| - |done|
      {
        ghost var e0 := e;
        ReportedMore(done, codes, optargs, e0);
        codes, optargs := codes + [code], optargs + [optarg];
        code, e := NextReport(whole, done, code, e0);
        done := done + [e0];
      }
    }

    /** A whole scan.  The codes and option arguments are those of the parser that never moves an
        argument; argv ends as the options followed by the operands, each kind in its original
        order, and optind is where the operands start. */
    method ScanAll() returns (codes: seq<int>, optargs: seq<Option<string>>)
      requires Valid() && !finished && optind == 0
      modifies this, argv
      ensures var r := Parse(cfg, args, 1, true);
        Delivered(r, codes, optargs) && Interleaves(args[1..], r.options, r.operands)
      ensures forall line :: OptionLines.Writes(cfg, line, args[1..]) ==>
                Delivered(OptionLines.Scanned(cfg, true, line.items, line.tail), codes, optargs)
      ensures multiset(argv[..]) == multiset(args)
    {
      ghost var r := StartStep(cfg, args, rest);
      assert Outcome() == Parsed(r.events, [args[0]] + r.options, [] + r.operands);
      codes, optargs := Drain();
      assert [] + r.operands == r.operands;
      WholeScan(cfg, args, r);
      forall line | OptionLines.Writes(cfg, line, args[1..])
        ensures OptionLines.Scanned(cfg, true, line.items, line.tail) == r
      {
        OptionLines.LineParses(cfg, args, line);
      }
    }

    /** The reports have been returned, and argv has become the options followed by the operands. */
    ghost predicate Delivered(r: Parsed, codes: seq<int>, optargs: seq<Option<string>>)
      requires args != []
      reads this, argv
    {
      && Reported(r.events, codes, optargs)
      && argv[..] == [args[0]] + r.options + r.operands && optind == 1 + |r.options|
    }
  }

  /** What is outstanding before a report. */
  function Before(e: Event, r: Parsed): Parsed { Parsed([e] + r.events, r.options, r.operands) }

  lemma ReportedMore(es: seq<Event>, codes: seq<int>, optargs: seq<Option<string>>, e: Event)
    requires Reported(es, codes, optargs)
    ensures Reported(es + [e], codes + [e.code], optargs + [e.optarg])
  {}

  // ---- The arguments scanned so far ------------------------------------------------------
  //
  // Where argv has become `now`: the options of earlier rounds come first, then the operands skipped so
  // far, from `first` to `last`, then the options found after them, up to `o`.  The definition only
  // unfolds where a proof mentions Unfold.

  ghost predicate Divided(now: seq<string>, args: seq<string>, first: int, last: int, o: int, options: seq<string>,
                          operands: seq<string>) {
    forall n {:trigger Unfold(n)} :: Unfold(n) ==>
      && 0 <= first <= last <= o <= |now| == |args| && now[o..] == args[o..]
      && now[..first] + now[last..o] == options && now[first..last] == operands
  }

  lemma DividedFirst(args: seq<string>)
    requires |args| >= 1
    ensures Divided(args, args, 1, 1, 1, [args[0]], [])
  {
    assert args[..1] + args[1..1] == [args[0]];
  }

  /** From o on nothing has moved. */
  lemma DividedAhead(now: seq<string>, args: seq<string>, first: int, last: int, o: int, next: int,
                     options: seq<string>, operands: seq<string>)
    requires Divided(now, args, first, last, o, options, operands) && 0 <= o < |now| && next == o + 1
    ensures |now| == |args| && args[o] == now[o] && now[next..] == args[next..]
    ensures next < |now| ==> args[next] == now[next]
  {
    assert Unfold(0);
    assert args[o] == args[o..][0] == now[o..][0];
    assert now[next..] == now[o..][1..] && args[next..] == args[o..][1..];
    assert next < |now| ==> args[next] == args[o..][1] && now[next] == now[o..][1];
  }

  /** Skipping an operand. */
  lemma DividedOperand(now: seq<string>, args: seq<string>, first: int, o: int, next: int, options: seq<string>,
                       operands: seq<string>)
    requires Divided(now, args, first, o, o, options, operands) && 0 <= o < |now| && next == o + 1
    ensures Divided(now, args, first, next, next, options, operands + [now[o]])
  {
    DividedAhead(now, args, first, o, o, next, options, operands);
    assert Unfold(0);
    assert now[..first] + now[next..next] == options && now[first..next] == operands + [now[o]];
  }

  /** Moving past arguments that belong to options. */
  lemma DividedTake(now: seq<string>, args: seq<string>, first: int, last: int, o: int, i: int, options: seq<string>,
                    operands: seq<string>)
    requires Divided(now, args, first, last, o, options, operands) && 0 <= o <= i <= |now| == |args|
    ensures Divided(now, args, first, last, i, options + args[o..i], operands)
    ensures o < i ==> now[i - 1] == args[i - 1] == args[o..i][i - o - 1]
  {
    assert Unfold(0);
    var n := i - o;
    assert now[i..] == now[o..][n..] && args[i..] == args[o..][n..];
    assert now[o..i] == now[o..][..n] == args[o..][..n] == args[o..i];
    assert now[last..i] == now[last..o] + args[o..i];
    Associative(now[..first], now[last..o], args[o..i]);
    assert o < i ==> now[i - 1] == now[o..i][n - 1];
  }

  /** exchange(). */
  lemma DividedExchange(now: seq<string>, args: seq<string>, first: nat, last: nat, o: nat, options: seq<string>,
                        operands: seq<string>)
    requires first <= last <= o <= |now| && Divided(now, args, first, last, o, options, operands)
    ensures Divided(Rotated(now, first, last, o), args, first + (o - last), o, o, options, operands)
  {
    assert Unfold(0);
    RotatedParts(now, first, last, o);
    var now', split := Rotated(now, first, last, o), first + (o - last);
    assert now' == options + operands + args[o..];
    assert now'[..split] + now'[o..o] == options && now'[split..o] == operands && now'[o..] == args[o..];
  }

  /** Without operands in between, the options are all that has been scanned. */
  lemma DividedEmpty(now: seq<string>, args: seq<string>, first: int, last: int, o: int, options: seq<string>,
                     operands: seq<string>)
    requires Divided(now, args, first, last, o, options, operands)
    ensures first == last ==> Divided(now, args, o, o, o, options, operands)
  {
    assert Unfold(0);
    if first == last {
      assert now[..o] + now[o..o] == now[..first] + now[last..o] && now[o..o] == operands;
    }
  }

  /** The parts, if the operands end at o or there are none. */
  lemma DividedParts(now: seq<string>, args: seq<string>, first: int, last: int, o: int, options: seq<string>,
                     operands: seq<string>)
    requires Divided(now, args, first, last, o, options, operands) && (first == last || last == o)
    ensures 0 <= o <= |args| && now == options + (operands + args[o..])
    ensures |options| == if first != last then first else o
    ensures first == last ==> operands == []
  {
    assert Unfold(0);
    assert now == now[..first] + now[first..last] + now[last..o] + now[o..];
  }

  lemma WholeScan(cfg: Config, args: seq<string>, r: Parsed)
    requires |args| >= 1 && r == Parse(cfg, args, 1, true)
    ensures Interleaves(args[1..], r.options, r.operands)
    ensures multiset([args[0]] + r.options + r.operands) == multiset(args)
  {
    ParseInterleaves(cfg, args, 1, true);
    InterleavesPermutes(args[1..], r.options, r.operands);
    assert args == [args[0]] + args[1..];
  }

  lemma Reassociate<T>(a: seq<T>, x: T, y: T, b: seq<T>)
    ensures a + ([x] + ([y] + b)) == (a + [x]) + ([y] + b)
  {}

  /** One code and one option argument per report, in order. */
  ghost predicate Reported(es: seq<Event>, codes: seq<int>, optargs: seq<Option<string>>) {
    && |codes| == |optargs| == |es|
    && forall k :: 0 <= k < |es| ==> codes[k] == es[k].code && optargs[k] == es[k].optarg
  }

  /** my_index. */
  method MyIndex(s: string, c: char) returns (n: nat)
    ensures n == IndexOf(s, c)
  {
    n := 0;
    while n < |s| && s[n] != c
      invariant n <= |s| && IndexOf(s, c) == n + IndexOf(s[n..], c)
    {
      assert s[n..][1..] == s[n + 1..];
      n := n + 1;
    }
  }

  function Or<T>(o: Option<T>, default: T): T { if o.Some? then o.value else default }

  /** The loop that finds the end of the name. */
  method NameEndOf(s: string) returns (n: nat)
    ensures n == NameEnd(s)
  {
    n := 0;
    while n < |s| && s[n] != '='
      invariant n <= |s| && NameEnd(s) == n + NameEnd(s[n..])
    {
      assert s[n..][1..] == s[n + 1..];
      n := n + 1;
    }
  }

  // ---- One step of the parser ------------------------------------------------------------
  //
  // Parses(.., r) says that r is what the parser yields from position i on, with the letters
  // `text` of a cluster still to be read.  Its definition only unfolds where a proof mentions
  // Unfold, so that the proofs about the scanner's state are not burdened with the parser.

  ghost predicate Parses(cfg: Config, args: seq<string>, i: nat, text: string, first: bool, r: Parsed) {
    forall n {:trigger Unfold(n)} :: Unfold(n) ==>
      && i <= |args| && (text != "" ==> i < |args|)
      && r == if text != "" then ParseCluster(cfg, args, i, text, first) else Parse(cfg, args, i, first)
  }

  lemma ParsesIntro(cfg: Config, args: seq<string>, i: nat, text: string, first: bool)
    requires i <= |args| && (text != "" ==> i < |args|)
    ensures Parses(cfg, args, i, text, first,
                   if text != "" then ParseCluster(cfg, args, i, text, first) else Parse(cfg, args, i, first))
  {}

  lemma StartStep(cfg: Config, args: seq<string>, r: Parsed) returns (r': Parsed)
    requires |args| >= 1 && Parses(cfg, args, 1, "", true, r)
    ensures r' == r == Parse(cfg, args, 1, true)
  {
    assert Unfold(0);
    r' := r;
  }

  /** Skipping an operand. */
  lemma SkipStep(cfg: Config, args: seq<string>, i: nat, first: bool, r: Parsed) returns (r': Parsed)
    requires Parses(cfg, args, i, "", first, r)
    requires i < |args| && IsOperand(args[i]) && OrderingOf(cfg) == Permute
    ensures Parses(cfg, args, i + 1, "", first, r') && r == r'.(operands := [args[i]] + r'.operands)
  {
    assert Unfold(0);
    r' := Parse(cfg, args, i + 1, first);
  }

  /** Reporting an operand. */
  lemma OperandStep(cfg: Config, args: seq<string>, i: nat, first: bool, r: Parsed) returns (r': Parsed)
    requires Parses(cfg, args, i, "", first, r)
    requires i < |args| && IsOperand(args[i]) && OrderingOf(cfg) == ReturnInOrder
    ensures Parses(cfg, args, i + 1, "", false, r')
    ensures r == Report(Plain(1, Some(args[i])), [args[i]], r')
  {
    assert Unfold(0);
    r' := Parse(cfg, args, i + 1, false);
  }

  /** The three ways for a scan to end. */
  lemma EndStep(cfg: Config, args: seq<string>, i: nat, first: bool, r: Parsed)
    requires Parses(cfg, args, i, "", first, r)
    requires i < |args| ==> args[i] == "--" || (IsOperand(args[i]) && OrderingOf(cfg) == RequireOrder)
    ensures i <= |args|
    ensures r == if i == |args| then Parsed([], [], [])
                 else if args[i] == "--" then Parsed([], ["--"], args[i + 1..])
                 else Parsed([], [], args[i..])
  {
    assert Unfold(0);
  }

  /** One long option: its report, and how many arguments belong to it. */
  lemma LongStep(cfg: Config, args: seq<string>, i: nat, first: bool, r: Parsed) 
    returns (e: Event, n: nat, i': nat, r': Parsed)
    requires Parses(cfg, args, i, "", first, r)
    requires i < |args| && !IsOperand(args[i]) && args[i] != "--" && IsLong(cfg, args[i])
    ensures LongEvent(cfg, Letters(cfg, first), args[i][2..], Argument(args, i + 1)) == (e, n == 2) && 1 <= n <= 2
    ensures i' == i + n <= |args| && r == Report(e, args[i..i'], r') && Parses(cfg, args, i', "", false, r')
  {
    assert Unfold(0);
    var (e0, takesNext) := LongEvent(cfg, Letters(cfg, first), args[i][2..], Argument(args, i + 1));
    e, n := e0, if takesNext then 2 else 1;
    i' := i + n;
    r' := Parse(cfg, args, i', false);
  }

  lemma EnterCluster(cfg: Config, args: seq<string>, i: nat, first: bool, r: Parsed)
    requires Parses(cfg, args, i, "", first, r)
    requires i < |args| && !IsOperand(args[i]) && args[i] != "--" && !IsLong(cfg, args[i])
    ensures |args[i]| > 1 && Parses(cfg, args, i, args[i][1..], first, r)
  {
    assert Unfold(0);
  }

  /** One short option: its report, and how many arguments end with it. */
  lemma ShortStep(cfg: Config, args: seq<string>, i: nat, text: string, first: bool, r: Parsed)
    returns (e: Event, n: nat, i': nat, r': Parsed)
    requires text != "" && Parses(cfg, args, i, text, first, r)
    ensures i' == i + n <= |args| && i < |args|
    ensures var (e', left, takesNext) := ShortEvent(Letters(cfg, first), text, Argument(args, i + 1));
      && e == e' && n == (if left != "" then 0 else if takesNext then 2 else 1)
      && r == Report(e, args[i..i'], r') && Parses(cfg, args, i', left, false, r')
  {
    assert Unfold(0);
    var (e0, left, takesNext) := ShortEvent(Letters(cfg, first), text, Argument(args, i + 1));
    e, n := e0, if left != "" then 0 else if takesNext then 2 else 1;
    i' := i + n;
    r' := if left != "" then ParseCluster(cfg, args, i, left, false) else Parse(cfg, args, i', false);
  }

  /** Moving past arguments that belong to an option. */
  lemma TakeStep(opts: seq<string>, opnds: seq<string>, e: Event, taken: seq<string>, r: Parsed)
    ensures opts + Report(e, taken, r).options == (opts + taken) + r.options
  {}
}
