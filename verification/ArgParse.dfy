/** A whole command line: the options that argtable2 compiles, getopt's scan of them, and the entries
    to which the results go (libargtable/argtable2.c). */
module ArgParse {
  import opened Common
  import opened OptionSyntax
  import opened OptionTable
  import opened Operands
  import G = Getopt
  import opened Charges

  // ---- arg_parse_tagged ------------------------------------------------------------------

  /** find_shortoption. */
  method FindShortOption(table: seq<Arg>, shortopt: char) returns (tabindex: int)
    ensures var k := FindShort(HeadersOf(table), shortopt, 0); tabindex == if k < |table| then k else -1
  {
    tabindex := 0;
    while tabindex < |table|
      invariant 0 <= tabindex <= |table|
      invariant FindShort(HeadersOf(table), shortopt, 0) == FindShort(HeadersOf(table), shortopt, tabindex)
    {
      if shortopt in table[tabindex].header.Short() {
        return;
      }
      tabindex := tabindex + 1;
    }
    return -1;
  }

  /** The call of a scan function, and the registration of its error. */
  method Scan(table: seq<Arg>, counts: array<nat>, k: nat, optarg: Option<string>, end: ErrorTable)
    requires counts.Length == |table| && k < |table| && end.Valid()
    modifies counts, end, end.slots
    ensures end.Valid() && State(counts[..], end.log) == ScanInto(table, old(State(counts[..], end.log)), k, optarg)
  {
    if table[k].scans {
      var errorcode := Verdict(table[k], counts[k], optarg);
      if errorcode == 0 {
        CountUp(counts, k);
      } else {
        end.Register(Error(errorcode, k, TextOf(optarg)));
      }
    }
  }

  /** The switch on what getopt_long returns; `before` is the argument in front of optind. */
  method Dispatch(table: seq<Arg>, counts: array<nat>, copt: int, optarg: Option<string>, optopt: int, flagval: int,
                  before: string, end: ErrorTable, ghost e: Event)
    requires counts.Length == |table| && end.Valid() && Placed(HeadersOf(table), e)
    requires e.last.Some? ==> before == e.last.value
    requires copt == e.code && optarg == e.optarg
    requires (e.optopt.Some? ==> optopt == e.optopt.value) && (e.flagval.Some? ==> flagval == e.flagval.value)
    modifies counts, end, end.slots
    ensures end.Valid()
    ensures State(counts[..], end.log) == Charge(table, old(State(counts[..], end.log)), e)
  {
    if copt == 0 {
      var tabindex := flagval;
      if optarg == Some("") && table[tabindex].header.hasValue {
        end.Register(Error(ARG_EMISSARG, -1, before));
      }
      Scan(table, counts, tabindex, optarg, end);
    } else if copt == QUESTION {
      if optopt == 0 {
        end.Register(Error(ARG_ELONGOPT, -1, before));
      } else {
        end.Register(Error(optopt, -1, ""));
      }
    } else if copt == COLON {
      end.Register(Error(ARG_EMISSARG, -1, before));
    } else {
      var tabindex := FindShortOption(table, copt as char);
      if tabindex == -1 {
        assert false;
      } else {
        Scan(table, counts, tabindex, optarg, end);
      }
    }
  }

  /** The reports so far have been charged. */
  ghost predicate Charged(table: seq<Arg>, start: State, now: State, done: seq<Event>) {
    |start.counts| == |table| && AllRouted(HeadersOf(table), done) && now == ChargeAll(table, start, done)
  }

  lemma ChargedOne(table: seq<Arg>, start: State, now: State, done: seq<Event>, e: Event)
    requires Charged(table, start, now, done) && Placed(HeadersOf(table), e)
    ensures |now.counts| == |table|
    ensures Charged(table, start, Charge(table, now, e), done + [e])
  {
    var es := done + [e];
    assert es[..|es| - 1] == done;
  }

  lemma NextIsRouted(t: Headers, whole: seq<Event>, done: seq<Event>, e: Event, rest: seq<Event>)
    requires AllRouted(t, whole) && whole == done + ([e] + rest)
    ensures Placed(t, e) && |done| < |whole|
  {
    assert whole[|done|] == e;
  }

  /** arg_parse_tagged, after the option strings have been compiled: every report of the scan is
      charged in turn, and argv is left with the operands last. */
  method ParseTagged(table: seq<Arg>, counts: array<nat>, scanner: G.Scanner, posix: bool, end: ErrorTable)
    requires counts.Length == |table| && end.Valid() && ProperTable(HeadersOf(table)) && CStrings(scanner.args)
    requires scanner.Valid() && !scanner.finished && scanner.optind == 0
    requires scanner.cfg == Compiled(HeadersOf(table), posix)
    modifies scanner, scanner.argv, counts, end, end.slots
    ensures end.Valid()
    ensures var r := Parse(scanner.cfg, scanner.args, 1, true);
            && Charged(table, old(State(counts[..], end.log)), State(counts[..], end.log), r.events)
            && scanner.argv[..] == [scanner.args[0]] + r.options + r.operands && scanner.optind == 1 + |r.options|
  {
    ghost var start := State(counts[..], end.log);
    ghost var r := G.StartStep(scanner.cfg, scanner.args, scanner.rest);
    ParseRouted(HeadersOf(table), posix, scanner.args, 1, true);
    ghost var whole := scanner.Outcome();
    assert whole == Parsed(r.events, [scanner.args[0]] + r.options, [] + r.operands);
    ChargeReports(table, counts, scanner, end, whole);
    assert [] + r.operands == r.operands;
  }

  /** The loop of arg_parse_tagged. */
  method ChargeReports(table: seq<Arg>, counts: array<nat>, scanner: G.Scanner, end: ErrorTable, ghost whole: Parsed)
    requires counts.Length == |table| && end.Valid() && AllRouted(HeadersOf(table), whole.events)
    requires scanner.Valid() && !scanner.finished && whole == scanner.Outcome()
    modifies scanner, scanner.argv, counts, end, end.slots
    ensures end.Valid() && scanner.Final(whole)
    ensures Charged(table, old(State(counts[..], end.log)), State(counts[..], end.log), whole.events)
  {
    ghost var start, done := State(counts[..], end.log), [];
    var copt;
    ghost var e;
    copt, e := scanner.FirstReport();
    while copt != -1
      invariant end.Valid() && scanner.Standing(whole, done, copt, e)
      invariant Charged(table, start, State(counts[..], end.log), done)
      decreases |whole.events| - |done|
    {
      NextIsRouted(HeadersOf(table), whole.events, done, e, scanner.rest.events);
      var before := scanner.argv[scanner.optind - 1];
      ChargedOne(table, start, State(counts[..], end.log), done, e);
      Dispatch(table, counts, copt, scanner.optarg, scanner.optopt, scanner.flagval, before, end, e);
      ghost var e0 := e;
      copt, e := scanner.NextReport(whole, done, copt, e0);
      done := done + [e0];
    }
  }

  // ---- The compiled options as getopt reads them -----------------------------------------

  predicate NamesAreCStrings(t: Headers) { forall k :: 0 <= k < |t| ==> '\0' !in t[k].Long() }

  lemma {:induction false} NamesWithin(s: string, c: char)
    requires c !in s
    ensures forall n :: n in Names(s) ==> c !in n
    decreases |s|
  {
    if s != "" {
      var name, rest := NextName(s);
      assert c !in name && c !in rest;
      NamesWithin(rest, c);
    }
  }

  lemma {:induction false} AllNamesWithin(t: Headers, n: nat)
    requires NamesAreCStrings(t) && n <= |t|
    ensures forall name :: name in AllNames(t, n) ==> '\0' !in name
  {
    if n > 0 {
      AllNamesWithin(t, n - 1);
      NamesWithin(t[n - 1].Long(), '\0');
    }
  }

  /** The string at a position of the store. */
  method ReadName(store: array<char>, pos: nat, ghost name: string) returns (s: string)
    requires '\0' !in name && pos + |name| + 1 <= store.Length
    requires store[pos..pos + |name| + 1] == name + ['\0']
    ensures s == name
  {
    s := "";
    var k := 0;
    ghost var slice := store[pos..pos + |name| + 1];
    assert slice[0] == (name + ['\0'])[0];
    while store[pos + k] != '\0'
      invariant k <= |name| && s == name[..k] && store[pos + k] == slice[k] && slice == name + ['\0']
      invariant forall j :: 0 <= j < |slice| ==> store[pos + j] == slice[j]
      decreases |name| - k
    {
      assert slice[k] == name[k];
      s := s + [store[pos + k]];
      k := k + 1;
    }
    assert slice[k] == '\0';
    assert name[..k] == name;
  }

  /** The long options as getopt finds them: up to the slot without a name. */
  method ReadLongOptions(options: array<Slot>, store: array<char>, ghost t: Headers) returns (os: seq<LongOption>)
    requires NamesAreCStrings(t)
    requires Filled(options[..], store[..], store.Length, AllNames(t, |t|), Owners(t, |t|), t)
    requires |AllNames(t, |t|)| < options.Length && options[|AllNames(t, |t|)|] == Slot(None, 0, 0)
    ensures os == LongOptions(t)
  {
    AllNamesWithin(t, |t|);
    os := ReadSlots(options, store, t, AllNames(t, |t|), Owners(t, |t|));
  }

  method ReadSlots(options: array<Slot>, store: array<char>, ghost t: Headers, ghost names: seq<string>,
                   ghost owners: seq<nat>)
    returns (os: seq<LongOption>)
    requires Filled(options[..], store[..], store.Length, names, owners, t)
    requires |names| < options.Length && options[|names|] == Slot(None, 0, 0) && forall n :: n in names ==> '\0' !in n
    ensures |os| == |names| == |owners|
    ensures forall k :: 0 <= k < |os| ==> owners[k] < |t| && os[k] == OptionOf(t, names[k], owners[k])
  {
    os := [];
    var i := 0;
    while options[i].name.Some?
      invariant i <= |names| && |os| == i
      invariant forall k :: 0 <= k < i ==> k < |owners| && owners[k] < |t| && os[k] == OptionOf(t, names[k], owners[k])
      decreases |names| - i
    {
      SlotNames(options[..], store[..], t, names, owners, i);
      var slot := options[i];
      ghost var end := slot.name.value + |names[i]| + 1;
      assert store[..][slot.name.value..end] == store[slot.name.value..end];
      var name := ReadName(store, slot.name.value, names[i]);
      os := os + [LongOption(name, slot.hasArg, true, slot.val)];
      i := i + 1;
    }
    SlotsEnd(options[..], store[..], t, names, owners, i);
  }

  lemma SlotsEnd(slots: seq<Slot>, store: seq<char>, t: Headers, names: seq<string>, owners: seq<nat>, i: nat)
    requires Filled(slots, store, |store|, names, owners, t) && i <= |names| < |slots| && slots[i].name.None?
    ensures i == |names| == |owners|
  {
    assert Unfold(0);
    if i < |names| {
      SlotNamed(slots, store, t, names, owners, i);
      assert false;
    }
  }

  lemma SlotNamed(slots: seq<Slot>, store: seq<char>, t: Headers, names: seq<string>, owners: seq<nat>, i: nat)
    requires FilledAt(slots, store, |store|, names, owners, t) && i < |names|
    ensures slots[i].name.Some?
  {
    assert NamesEntry(slots[i], store, |store|, names[i], t, owners[i]);
  }

  lemma SlotNames(slots: seq<Slot>, store: seq<char>, t: Headers, names: seq<string>, owners: seq<nat>, i: nat)
    requires Filled(slots, store, |store|, names, owners, t)
    requires |names| < |slots| && slots[|names|] == Slot(None, 0, 0) && i <= |names| && slots[i].name.Some?
    ensures i < |names| == |owners| && NamesEntry(slots[i], store, |store|, names[i], t, owners[i])
  {
    assert Unfold(0);
  }

  lemma {:induction false} ExpandWithin(letters: string, colons: string, c: char)
    requires c !in letters && c !in colons
    ensures c !in Expand(letters, colons)
  {
    if letters != "" {
      ExpandWithin(letters[1..], colons, c);
    }
  }

  lemma {:induction false} ShortWithin(t: Headers, i: nat)
    requires ProperTable(t) && i <= |t|
    ensures '\0' !in ShortFrom(t, i)
    decreases |t| - i
  {
    if i < |t| {
      ExpandWithin(t[i].Short(), Colons(t[i]), '\0');
      ShortWithin(t, i + 1);
    }
  }

  /** Compiling the table and handing the result to getopt. */
  method CompileOptions(t: Headers, posix: bool) returns (cfg: Config)
    requires ProperTable(t) && NamesAreCStrings(t) && CountableTable(t) && Leading(t, |t|) <= Trailing(t, |t|)
    ensures cfg == Compiled(t, posix)
  {
    var options, store := AllocLongOptions(t);
    var result := AllocShortOptions(t);
    var os := ReadLongOptions(options, store, t);
    ShortWithin(t, 0);
    assert result[0..0 + |ShortString(t)| + 1] == result[..|ShortString(t)|] + [result[|ShortString(t)|]];
    var letters := ReadName(result, 0, ShortString(t));
    cfg := Config(letters, Some(os), posix, false);
  }

  /** Nothing in the letters triggers the extension that this model leaves out. */
  lemma CompiledSupported(t: Headers, posix: bool)
    requires ProperTable(t)
    ensures Supported(Compiled(t, posix))
  {
    SemicolonWithin(t, 0);
    var os := ShortString(t);
    assert ';' !in os;
    forall k | 0 <= k < |os|
      ensures !(os[k] == 'W' && At(os, k + 1) == ';')
    {
      assert k + 1 < |os| ==> os[k + 1] in os;
    }
  }

  lemma {:induction false} SemicolonWithin(t: Headers, i: nat)
    requires ProperTable(t) && i <= |t|
    ensures ';' !in ShortFrom(t, i)
    decreases |t| - i
  {
    if i < |t| {
      ExpandWithin(t[i].Short(), Colons(t[i]), ';');
      SemicolonWithin(t, i + 1);
    }
  }

  // ---- arg_parse -------------------------------------------------------------------------

  /** The entries as arg_parse_untagged sees them. */
  function OperandEntries(table: seq<Arg>): (es: seq<Operands.Entry>)
    ensures |es| == |table|
  {
    seq(|table|, k requires 0 <= k < |table| =>
      var a := table[k];
      Operands.Entry(a.header.longopts.Some? || a.header.shortopts.Some?, a.scans, a.maxcount,
                     arg => a.verdict(Some(arg))))
  }

  /** The errors of the check functions: entries that occur too seldom. */
  function TooFew(table: seq<Arg>, counts: seq<nat>, n: nat): seq<Error>
    requires |counts| == |table| && n <= |table|
  {
    if n == 0 then []
    else
      var few := if counts[n - 1] < table[n - 1].mincount then [Error(EMINCOUNT, n - 1, "")] else [];
      TooFew(table, counts, n - 1) + few
  }

  /** These are the errors of the entries that occur too seldom, and no others. */
  lemma {:induction false} TooFewAre(table: seq<Arg>, counts: seq<nat>, n: nat, e: Error)
    requires |counts| == |table| && n <= |table|
    ensures e in TooFew(table, counts, n) <==>
              0 <= e.parent < n && counts[e.parent] < table[e.parent].mincount && e == Error(1, e.parent, "")
  {
    if n > 0 {
      TooFewAre(table, counts, n - 1, e);
    }
  }

  predicate Rising(es: seq<Error>) { forall i, j :: 0 <= i < j < |es| ==> es[i].parent < es[j].parent }

  /** They come in the order of the table. */
  lemma {:induction false} TooFewInOrder(table: seq<Arg>, counts: seq<nat>, n: nat)
    requires |counts| == |table| && n <= |table|
    ensures Rising(TooFew(table, counts, n))
  {
    if n > 0 {
      var before := TooFew(table, counts, n - 1);
      TooFewInOrder(table, counts, n - 1);
      forall i | 0 <= i < |before|
        ensures before[i].parent < n - 1
      {
        TooFewAre(table, counts, n - 1, before[i]);
      }
      RisingMore(before, Error(EMINCOUNT, n - 1, ""));
      assert before + [] == before;
    }
  }

  lemma RisingMore(es: seq<Error>, e: Error)
    requires Rising(es) && forall i :: 0 <= i < |es| ==> es[i].parent < e.parent
    ensures Rising(es + [e])
  {}

  /** arg_parse_check. */
  method Check(table: seq<Arg>, counts: array<nat>, end: ErrorTable)
    requires counts.Length == |table| && end.Valid()
    modifies end, end.slots
    ensures end.Valid() && end.log == old(end.log) + TooFew(table, counts[..], |table|)
  {
    assert end.log + [] == end.log;
    for tabindex := 0 to |table|
      invariant end.Valid() && end.log == old(end.log) + TooFew(table, counts[..], tabindex)
    {
      if counts[tabindex] < table[tabindex].mincount {
        Associative(old(end.log), TooFew(table, counts[..], tabindex), [Error(EMINCOUNT, tabindex, "")]);
        end.Register(Error(EMINCOUNT, tabindex, ""));
      }
    }
  }

  /** What arg_parse makes of a command line: the reports of the left-to-right parser, charged in
      turn; then its operands, given out greedily; and, if nothing went wrong, the minimum counts. */
  ghost predicate Outcome(table: seq<Arg>, posix: bool, args: seq<string>, tagged: State,
                          counts: seq<nat>, log: seq<Error>)
    requires |args| >= 1
  {
    var r := Parse(Compiled(HeadersOf(table), posix), args, 1, true);
    && Charged(table, State(Zeros(|table|), []), tagged, r.events)
    && |tagged.counts| == |table| == |counts|
    && var f := Distribute(OperandEntries(table), tagged.counts, 0, r.operands);
       && CountsAfter(tagged.counts, f, counts)
       && log == WithChecks(table, counts, tagged.errors + Operands.Errors(f))
  }

  function WithChecks(table: seq<Arg>, counts: seq<nat>, errors: seq<Error>): seq<Error>
    requires |counts| == |table|
  {
    if errors == [] then TooFew(table, counts, |table|) else errors
  }

  ghost predicate WithinLimits(table: seq<Arg>, counts: seq<nat>) {
    |counts| == |table| && forall k :: 0 <= k < |table| ==> counts[k] <= table[k].maxcount
  }

  lemma {:induction false} ChargesWithinLimits(table: seq<Arg>, s: State, es: seq<Event>)
    requires WithinLimits(table, s.counts) && AllRouted(HeadersOf(table), es)
    ensures WithinLimits(table, ChargeAll(table, s, es).counts)
  {
    if es != [] {
      ChargesWithinLimits(table, s, es[..|es| - 1]);
    }
  }

  /** No entry ever counts more than its maximum, whatever the command line. */
  lemma OutcomeWithinLimits(table: seq<Arg>, posix: bool, args: seq<string>, tagged: State,
                            counts: seq<nat>, log: seq<Error>)
    requires |args| >= 1 && Outcome(table, posix, args, tagged, counts, log)
    ensures WithinLimits(table, counts)
  {
    var r := Parse(Compiled(HeadersOf(table), posix), args, 1, true);
    ChargesWithinLimits(table, State(Zeros(|table|), []), r.events);
    forall e: nat | e < |table|
      ensures counts[e] <= table[e].maxcount
    {
      DistributionRoom(OperandEntries(table), tagged.counts, 0, r.operands, e);
    }
  }

  /** The same, read off the reports: every entry has counted the reports that concern it, and those of the
      operands that it took; and the errors are those of the reports, then those of the operands, then, if
      there are none, those of the entries that occur too seldom. */
  ghost predicate Told(table: seq<Arg>, r: Parsed, counts: seq<nat>, log: seq<Error>) {
    && |counts| == |table| && AllRouted(HeadersOf(table), r.events)
    && var f := Distribute(OperandEntries(table), CountsOf(table, r.events), 0, r.operands);
       && (forall k :: 0 <= k < |table| ==> counts[k] == CountAfter(table, r.events, k) + TakenBy(f, k))
       && (forall k :: 0 <= k < |table| && HasOptions(table[k]) ==> TakenBy(f, k) == 0)
       && log == WithChecks(table, counts, ErrorsOf(table, r.events) + Operands.Errors(f))
  }

  predicate HasOptions(a: Arg) { a.header.longopts.Some? || a.header.shortopts.Some? }

  lemma OutcomeTold(table: seq<Arg>, posix: bool, args: seq<string>, tagged: State, counts: seq<nat>, log: seq<Error>)
    requires |args| >= 1 && Outcome(table, posix, args, tagged, counts, log)
    ensures Told(table, Parse(Compiled(HeadersOf(table), posix), args, 1, true), counts, log)
  {
    var r := Parse(Compiled(HeadersOf(table), posix), args, 1, true);
    ChargesTell(table, State(Zeros(|table|), []), r.events);
    assert tagged.counts == CountsOf(table, r.events);
    var es := OperandEntries(table);
    var f := Distribute(es, tagged.counts, 0, r.operands);
    DistributionOrder(es, tagged.counts, 0, r.operands);
    forall k | 0 <= k < |table| && HasOptions(table[k])
      ensures TakenBy(f, k) == 0
    {
      TaggedTakesNone(f, es, k);
    }
  }

  lemma {:induction false} TaggedTakesNone(f: seq<Fate>, es: seq<Operands.Entry>, k: nat)
    requires k < |es| && !es[k].Untagged() && forall j :: 0 <= j < |f| && f[j].Taken? ==>
               f[j].entry < |es| && es[f[j].entry].Untagged()
    ensures TakenBy(f, k) == 0
  {
    if f != [] {
      TaggedTakesNone(f[1..], es, k);
    }
  }

  predicate ProperCall(table: seq<Arg>) {
    var t := HeadersOf(table);
    ProperTable(t) && NamesAreCStrings(t) && CountableTable(t) && Leading(t, |t|) <= Trailing(t, |t|)
  }

  /** arg_parse, on a copy of argv: the counts of the entries, the error table, and the number of
      errors in it. */
  method Run(table: seq<Arg>, argv: seq<string>, posix: bool, maxerrors: nat)
    returns (nerrors: nat, counts: array<nat>, end: ErrorTable, ghost tagged: State)
    requires ProperCall(table) && CStrings(argv) && maxerrors >= 1
    ensures end.Valid() && nerrors == end.count && counts.Length == |table|
    ensures if argv == [] then end.log == TooFew(table, Zeros(|table|), |table|)
            else Outcome(table, posix, argv, tagged, counts[..], end.log)
    ensures argv != [] ==> Told(table, Parse(Compiled(HeadersOf(table), posix), argv, 1, true), counts[..], end.log)
  {
    counts := new nat[|table|](_ => 0);
    end := new ErrorTable(maxerrors);
    tagged := State([], []);
    assert counts[..] == Zeros(|table|);
    if argv == [] {
      Check(table, counts, end);
      return end.count, counts, end, tagged;
    }
    var optind, operands;
    optind, operands := Tagged(table, counts, argv, posix, end);
    tagged := State(counts[..], end.log);
    var _ := ParseUntagged(OperandEntries(table), counts, operands, optind, end);
    if end.count == 0 {
      Check(table, counts, end);
    }
    nerrors := end.count;
    OutcomeTold(table, posix, argv, tagged, counts[..], end.log);
  }

  /** The first half: compile, copy argv, and parse the options. */
  method Tagged(table: seq<Arg>, counts: array<nat>, argv: seq<string>, posix: bool, end: ErrorTable)
    returns (optind: nat, argvcopy: seq<string>)
    requires ProperCall(table) && CStrings(argv) && argv != []
    requires counts.Length == |table| && end.Valid()
    modifies counts, end, end.slots
    ensures end.Valid() && optind <= |argvcopy|
    ensures var r := Parse(Compiled(HeadersOf(table), posix), argv, 1, true);
            && Charged(table, old(State(counts[..], end.log)), State(counts[..], end.log), r.events)
            && argvcopy[optind..] == r.operands
  {
    var cfg := CompileOptions(HeadersOf(table), posix);
    CompiledSupported(HeadersOf(table), posix);
    var copy := new string[|argv|](k requires 0 <= k < |argv| => argv[k]);
    assert copy[..] == argv;
    var scanner := new G.Scanner(cfg, copy);
    ParseTagged(table, counts, scanner, posix, end);
    optind, argvcopy := scanner.optind, copy[..];
    ghost var r := Parse(cfg, argv, 1, true);
    assert |[argv[0]] + r.options| == optind;
  }
}
