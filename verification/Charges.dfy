/** What the reports of a scan do to the entries of an argument table: which entry each report names, its
    count and the errors (libargtable/argtable2.c). */
module Charges {
  import opened Common
  import opened OptionSyntax
  import OptionLines
  import opened OptionTable
  import opened Operands

  const ARG_ELONGOPT := 4
  const ARG_EMISSARG := 5
  const EMINCOUNT := 1

  // ---- The compiled options --------------------------------------------------------------

  type Headers = seq<OptionTable.Entry>

  /** The long options that alloc_longoptions stores: a name, the arity of its entry, and, through the
      flag pointer, the index of that entry. */
  function LongOptions(t: Headers): (os: seq<LongOption>)
    ensures |os| == |AllNames(t, |t|)|
  {
    seq(|AllNames(t, |t|)|, k requires 0 <= k < |AllNames(t, |t|)| =>
      OptionOf(t, AllNames(t, |t|)[k], Owners(t, |t|)[k]))
  }

  /** The option for a long name of an entry. */
  function OptionOf(t: Headers, name: string, owner: nat): LongOption
    requires owner < |t|
  {
    LongOption(name, t[owner].HasArg(), true, owner)
  }

  function Compiled(t: Headers, posixlyCorrect: bool): Config {
    Config(ShortString(t), Some(LongOptions(t)), posixlyCorrect, false)
  }

  /** No letter has a meaning of its own in an option string or as a return value, and an optional
      value is a value. */
  predicate ProperTable(t: Headers) {
    && NoColons(t)
    && forall k :: 0 <= k < |t| ==>
         && ';' !in t[k].Short() && '?' !in t[k].Short() && (forall c :: c in t[k].Short() ==> 0 < c as int < 128)
         && (t[k].hasOptValue ==> t[k].hasValue)
  }

  // ---- What the table says of its options ------------------------------------------------

  /** Entry k is the first with this letter. */
  predicate FirstWith(t: Headers, c: char, k: nat) {
    k < |t| && c in t[k].Short() && forall j :: 0 <= j < k ==> c !in t[j].Short()
  }

  lemma FirstIsFound(t: Headers, c: char)
    ensures FindShort(t, c, 0) < |t| ==> FirstWith(t, c, FindShort(t, c, 0))
    ensures forall k: nat :: FirstWith(t, c, k) ==> k == FindShort(t, c, 0)
  {}

  /** A letter is an option if some entry has it, and the first entry that has it tells whether it takes a value:
      one flag for one that it must have, both for one that it may have.  The option letters begin with a
      colon. */
  lemma LettersDeclared(t: Headers, c: char)
    requires NoColons(t) && c != ':'
    ensures var os := ShortString(t);
            && At(os, 0) == ':'
            && (OptionLines.Undeclared(os, c) <==> forall k :: 0 <= k < |t| ==> c !in t[k].Short())
            && forall k: nat :: FirstWith(t, c, k) ==>
                 && (OptionLines.TakesNone(os, c) <==> !t[k].hasValue && !t[k].hasOptValue)
                 && (OptionLines.TakesOne(os, c) <==> t[k].hasValue != t[k].hasOptValue)
                 && (OptionLines.MayTakeOne(os, c) <==> t[k].hasValue && t[k].hasOptValue)
  {
    var os, k := ShortString(t), FindShort(t, c, 0);
    FirstIsFound(t, c);
    CompiledIndex(t, c);
    if k < |t| {
      var p := IndexOf(os, c);
      ArityFromColons(os, p, t[k]);
      DeclaredOnce(os, c, p);
    }
  }

  lemma DeclaredOnce(os: string, c: char, p: nat)
    requires c != ':' && p == IndexOf(os, c) < |os|
    ensures OptionLines.TakesNone(os, c) <==> At(os, p + 1) != ':'
    ensures OptionLines.TakesOne(os, c) <==> At(os, p + 1) == ':' && At(os, p + 2) != ':'
    ensures OptionLines.MayTakeOne(os, c) <==> At(os, p + 1) == ':' && At(os, p + 2) == ':'
  {
    assert forall j :: 0 <= j < p ==> os[..p][j] == os[j];
    assert OptionLines.DeclaredAt(os, c, p);
    forall q | OptionLines.DeclaredAt(os, c, q)
      ensures q == p
    {
      OptionLines.FirstPlace(os, c, q);
    }
  }

  /** The name is one of these, and belongs to entry k. */
  predicate Owned(names: seq<string>, owners: seq<nat>, name: string, k: nat) {
    exists j :: 0 <= j < |names| && j < |owners| && names[j] == name && owners[j] == k
  }

  /** The long options are the names of the entries, and each returns the index of its entry through the flag, and
      takes a value as the flags of the entry say. */
  lemma LongDeclared(t: Headers, name: string, k: nat)
    requires k < |t|
    ensures var os := LongOptions(t);
            && ((exists j :: 0 <= j < |os| && os[j].name == name && os[j].val == k) <==>
                  name in OptionTable.Names(t[k].Long()))
            && forall j :: 0 <= j < |os| && os[j].val == k ==>
                 os[j].hasFlag && os[j].hasArg == if t[k].hasOptValue then 2 else if t[k].hasValue then 1 else 0
  {
    var names, owners, os := AllNames(t, |t|), Owners(t, |t|), LongOptions(t);
    OwnedNames(t, |t|, name, k);
    if Owned(names, owners, name, k) {
      var j :| 0 <= j < |names| && names[j] == name && owners[j] == k;
      assert os[j].name == name && os[j].val == k;
    }
    if j :| 0 <= j < |os| && os[j].name == name && os[j].val == k {
      assert names[j] == name && owners[j] == k;
    }
  }

  lemma {:induction false} OwnedNames(t: Headers, n: nat, name: string, k: nat)
    requires n <= |t| && k < |t|
    ensures Owned(AllNames(t, n), Owners(t, n), name, k) <==> k < n && name in OptionTable.Names(t[k].Long())
  {
    if n > 0 {
      var m := n - 1;
      OwnedNames(t, m, name, k);
      OwnedMore(AllNames(t, m), Owners(t, m), OptionTable.Names(t[m].Long()), m, name, k);
    }
  }

  lemma OwnedMore(names: seq<string>, owners: seq<nat>, more: seq<string>, m: nat, name: string, k: nat)
    requires |names| == |owners|
    ensures Owned(names + more, owners + Repeat(|more|, m), name, k) <==>
              Owned(names, owners, name, k) || (k == m && name in more)
  {
    var all, allOwners := names + more, owners + Repeat(|more|, m);
    if Owned(names, owners, name, k) {
      var j :| 0 <= j < |names| && names[j] == name && owners[j] == k;
      assert all[j] == name && allOwners[j] == k;
    }
    if k == m && name in more {
      var j :| 0 <= j < |more| && more[j] == name;
      assert all[|names| + j] == name && allOwners[|names| + j] == k;
    }
    if Owned(all, allOwners, name, k) {
      var j :| 0 <= j < |all| && all[j] == name && allOwners[j] == k;
      if j < |names| {
        assert names[j] == name && owners[j] == k;
      } else {
        assert more[j - |names|] == name;
      }
    }
  }

  // ---- Every report finds its entry ------------------------------------------------------

  /** The report has an argument as the arity says: none, one, or perhaps one. */
  predicate Argued(e: Event, hasArg: int) {
    (hasArg == 0 ==> e.optarg.None?) && (hasArg == 1 ==> e.optarg.Some?)
  }

  ghost predicate ForLetter(t: Headers, e: Event, c: char) {
    && c as int == e.code && 0 < e.code < 128 && e.optopt.None? && FindShort(t, c, 0) < |t|
    && Argued(e, t[FindShort(t, c, 0)].HasArg())
  }

  /** A report is a complaint, or names the entry that declares the long option, or is a letter that
      some entry has; and its argument is as that entry wants it. */
  ghost predicate Routed(t: Headers, e: Event) {
    if e.code == 0 then
      && e.flagval.Some? && e.longind.Some? && 0 <= e.longind.value < |Owners(t, |t|)|
      && e.flagval.value == Owners(t, |t|)[e.longind.value]
      && Argued(e, t[e.flagval.value].HasArg())
    else if e.code == QUESTION || e.code == COLON then
      e.optopt.Some? && e.optarg.None?
    else exists c: char :: ForLetter(t, e, c)
  }

  /** The last argument that the report consumes is part of an error. */
  predicate NeedsLast(e: Event) {
    || (e.code == 0 && e.optarg == Some(""))
    || (e.code == QUESTION && e.optopt == Some(0))
    || e.code == COLON
  }

  lemma LongRouted(t: Headers, cfg: Config, letters: string, text: string, next: Option<string>)
    requires cfg.longopts == Some(LongOptions(t))
    ensures Routed(t, LongEvent(cfg, letters, text, next).0)
  {}

  lemma ShortRouted(t: Headers, text: string, next: Option<string>)
    requires ProperTable(t) && text != "" && '\0' !in text
    ensures var (e, rest, takesNext) := ShortEvent(ShortString(t), text, next);
            Routed(t, e) && (NeedsLast(e) ==> rest == "")
  {
    var c, os := text[0], ShortString(t);
    var e := ShortEvent(os, text, next).0;
    if c != ':' {
      CompiledIndex(t, c);
      var k := FindShort(t, c, 0);
      if k < |t| {
        ArityFromColons(os, IndexOf(os, c), t[k]);
        if e.optopt.None? {
          assert ForLetter(t, e, c);
        }
      }
    }
  }

  /** The report finds its entry, and the argument that it needs. */
  ghost predicate Placed(t: Headers, e: Event) { Routed(t, e) && (NeedsLast(e) ==> e.last.Some?) }

  ghost predicate AllRouted(t: Headers, es: seq<Event>) { forall k :: 0 <= k < |es| ==> Placed(t, es[k]) }

  lemma RoutedReport(t: Headers, e: Event, options: seq<string>, r: Parsed)
    requires Routed(t, e) && (NeedsLast(e) ==> options != []) && AllRouted(t, r.events)
    ensures AllRouted(t, Report(e, options, r).events)
  {
    var e' := e.(last := Last(options));
    if e.code != 0 && e.code != QUESTION && e.code != COLON {
      var c: char :| ForLetter(t, e, c);
      assert ForLetter(t, e', c);
    }
    assert Placed(t, e');
  }

  ghost predicate CStrings(args: seq<string>) { forall k :: 0 <= k < |args| ==> '\0' !in args[k] }

  /** Every report of a whole scan finds its entry, and consumes an argument if it needs one: the index
      behind a long option is that of the entry that declares it, and a letter that getopt returns is
      always in the table. */
  lemma {:induction false} ParseRouted(t: Headers, posix: bool, args: seq<string>, i: nat, first: bool)
    requires ProperTable(t) && CStrings(args) && i <= |args|
    ensures AllRouted(t, Parse(Compiled(t, posix), args, i, first).events)
    decreases |args| - i, 1, 0
  {
    var cfg := Compiled(t, posix);
    if i < |args| && args[i] != "--" {
      if IsOperand(args[i]) {
        assert OrderingOf(cfg) != ReturnInOrder;
        if OrderingOf(cfg) == Permute {
          ParseRouted(t, posix, args, i + 1, first);
        }
      } else if IsLong(cfg, args[i]) {
        LongScanRouted(t, posix, args, i, first);
      } else {
        ClusterRouted(t, posix, args, i, args[i][1..], first);
      }
    }
  }

  lemma {:induction false} LongScanRouted(t: Headers, posix: bool, args: seq<string>, i: nat, first: bool)
    requires ProperTable(t) && CStrings(args) && i < |args|
    requires args[i] != "--" && !IsOperand(args[i]) && IsLong(Compiled(t, posix), args[i])
    ensures AllRouted(t, Parse(Compiled(t, posix), args, i, first).events)
    decreases |args| - i, 0, |args[i]|
  {
    var cfg := Compiled(t, posix);
    var text, next := args[i][2..], Argument(args, i + 1);
    var (e, takesNext) := LongEvent(cfg, Letters(cfg, first), text, next);
    var n := if takesNext then i + 2 else i + 1;
    LongRouted(t, cfg, Letters(cfg, first), text, next);
    ParseRouted(t, posix, args, n, false);
    RoutedReport(t, e, args[i..n], Parse(cfg, args, n, false));
  }

  lemma {:induction false} ClusterRouted(t: Headers, posix: bool, args: seq<string>, i: nat, text: string, first: bool)
    requires ProperTable(t) && CStrings(args) && i < |args| && text != "" && '\0' !in text
    ensures AllRouted(t, ParseCluster(Compiled(t, posix), args, i, text, first).events)
    decreases |args| - i, 0, |text|
  {
    var cfg := Compiled(t, posix);
    assert Letters(cfg, first) == ShortString(t);
    var (e, rest, takesNext) := ShortEvent(Letters(cfg, first), text, Argument(args, i + 1));
    ShortRouted(t, text, Argument(args, i + 1));
    if rest != "" {
      ClusterRouted(t, posix, args, i, rest, false);
      RoutedReport(t, e, [], ParseCluster(cfg, args, i, rest, false));
    } else {
      var n := if takesNext then i + 2 else i + 1;
      ParseRouted(t, posix, args, n, false);
      RoutedReport(t, e, args[i..n], Parse(cfg, args, n, false));
    }
  }

  // ---- Charging the entries --------------------------------------------------------------

  /** A table entry: its header, how often it may occur, and its scan function, if it has one, as in
      Operands; the argument is missing where an optional value was not given. */
  datatype Arg = Arg(header: OptionTable.Entry, scans: bool, mincount: nat, maxcount: nat,
                     verdict: Option<string> -> int)

  function HeadersOf(table: seq<Arg>): (t: Headers)
    ensures |t| == |table|
  {
    seq(|table|, k requires 0 <= k < |table| => table[k].header)
  }

  function Zeros(n: nat): (z: seq<nat>)
    ensures |z| == n
  {
    seq(n, _ => 0)
  }

  /** The counts of the entries and the errors registered so far. */
  datatype State = State(counts: seq<nat>, errors: seq<Error>)

  function TextOf(arg: Option<string>): string { if arg.Some? then arg.value else "" }

  function Verdict(a: Arg, count: nat, arg: Option<string>): int {
    if count == a.maxcount then EMAXCOUNT else a.verdict(arg)
  }

  /** Entry k scans an argument. */
  function ScanInto(table: seq<Arg>, s: State, k: nat, arg: Option<string>): (s': State)
    requires |s.counts| == |table| && k < |table|
    ensures |s'.counts| == |table| && s.errors <= s'.errors
  {
    if !table[k].scans then s
    else if Verdict(table[k], s.counts[k], arg) == 0 then s.(counts := s.counts[k := s.counts[k] + 1])
    else s.(errors := s.errors + [Error(Verdict(table[k], s.counts[k], arg), k, TextOf(arg))])
  }

  function Complain(s: State, code: int, argval: string): State { s.(errors := s.errors + [Error(code, -1, argval)]) }

  /** What a report does. */
  ghost function Charge(table: seq<Arg>, s: State, e: Event): (s': State)
    requires |s.counts| == |table| && Placed(HeadersOf(table), e)
    ensures |s'.counts| == |table|
  {
    if e.code == 0 then
      var k := e.flagval.value;
      var s1 := if e.optarg == Some("") && table[k].header.hasValue then Complain(s, ARG_EMISSARG, e.last.value) else s;
      ScanInto(table, s1, k, e.optarg)
    else if e.code == QUESTION then
      if e.optopt.value == 0 then Complain(s, ARG_ELONGOPT, e.last.value) else Complain(s, e.optopt.value, "")
    else if e.code == COLON then Complain(s, ARG_EMISSARG, e.last.value)
    else ScanInto(table, s, FindShort(HeadersOf(table), e.code as char, 0), e.optarg)
  }

  ghost function ChargeAll(table: seq<Arg>, s: State, es: seq<Event>): (s': State)
    requires |s.counts| == |table| && AllRouted(HeadersOf(table), es)
    ensures |s'.counts| == |table|
  {
    if es == [] then s
    else
      var n := |es| - 1;
      Charge(table, ChargeAll(table, s, es[..n]), es[n])
  }

  // ---- Counts and errors, read off the reports -------------------------------------------

  /** The report is of a long option that stores k, or of a letter that entry k is the first to have. */
  predicate Concerns(t: Headers, e: Event, k: nat) {
    && k < |t| && e.code != QUESTION && e.code != COLON
    && if e.code == 0 then e.flagval == Some(k) else 0 < e.code < 128 && FirstWith(t, e.code as char, k)
  }

  /** How many reports name entry k with an argument that its scan function accepts. */
  function Willing(table: seq<Arg>, es: seq<Event>, k: nat): nat
    requires k < |table|
  {
    if es == [] then 0
    else
      var n := |es| - 1;
      Willing(table, es[..n], k)
      + if Concerns(HeadersOf(table), es[n], k) && table[k].verdict(es[n].optarg) == 0 then 1 else 0
  }

  /** The count of entry k after these reports. */
  function CountAfter(table: seq<Arg>, es: seq<Event>, k: nat): nat
    requires k < |table|
  {
    if table[k].scans then Min(table[k].maxcount, Willing(table, es, k)) else 0
  }

  function CountsOf(table: seq<Arg>, es: seq<Event>): (counts: seq<nat>)
    ensures |counts| == |table|
  {
    seq(|table|, k requires 0 <= k < |table| => CountAfter(table, es, k))
  }

  /** The errors of a report of entry k, after other reports: an empty value where one is needed, and either
      that there is no more room or what the scan function says. */
  function ErrorsFor(table: seq<Arg>, done: seq<Event>, e: Event, k: nat): seq<Error>
    requires k < |table| && (NeedsLast(e) ==> e.last.Some?)
  {
    (if e.code == 0 && e.optarg == Some("") && table[k].header.hasValue then [Error(ARG_EMISSARG, -1, e.last.value)]
     else [])
    + (if !table[k].scans then []
       else if CountAfter(table, done, k) == table[k].maxcount then [Error(EMAXCOUNT, k, TextOf(e.optarg))]
       else if table[k].verdict(e.optarg) != 0 then [Error(table[k].verdict(e.optarg), k, TextOf(e.optarg))]
       else [])
  }

  /** The errors of a report: one for a complaint, else those of the entry that it names. */
  ghost function ErrorsAt(table: seq<Arg>, done: seq<Event>, e: Event): seq<Error>
    requires Placed(HeadersOf(table), e)
  {
    if e.code == QUESTION then
      [if e.optopt == Some(0) then Error(ARG_ELONGOPT, -1, e.last.value) else Error(e.optopt.value, -1, "")]
    else if e.code == COLON then [Error(ARG_EMISSARG, -1, e.last.value)]
    else
      ConcernsOne(HeadersOf(table), e);
      var k: nat :| Concerns(HeadersOf(table), e, k);
      ErrorsFor(table, done, e, k)
  }

  ghost function ErrorsOf(table: seq<Arg>, es: seq<Event>): seq<Error>
    requires AllRouted(HeadersOf(table), es)
  {
    if es == [] then []
    else
      var n := |es| - 1;
      ErrorsOf(table, es[..n]) + ErrorsAt(table, es[..n], es[n])
  }

  /** The entry that the switch finds. */
  function Target(t: Headers, e: Event): int {
    if e.code == 0 then (if e.flagval.Some? then e.flagval.value else -1)
    else if 0 < e.code < 128 then FindShort(t, e.code as char, 0)
    else -1
  }

  lemma ConcernsTarget(t: Headers, e: Event)
    requires Routed(t, e) && e.code != QUESTION && e.code != COLON
    ensures 0 <= Target(t, e) < |t| && forall k: nat :: Concerns(t, e, k) <==> k == Target(t, e)
  {
    if e.code != 0 {
      var c: char :| ForLetter(t, e, c);
      FirstIsFound(t, c);
    }
  }

  lemma ConcernsOne(t: Headers, e: Event)
    requires Routed(t, e) && e.code != QUESTION && e.code != COLON
    ensures exists k: nat :: Concerns(t, e, k)
    ensures forall k, l: nat :: Concerns(t, e, k) && Concerns(t, e, l) ==> k == l
  {
    ConcernsTarget(t, e);
    assert Concerns(t, e, Target(t, e));
  }

  /** Each entry has counted the reports that concern it and that it accepts, up to its maximum, and the errors
      are those of the reports in turn. */
  ghost predicate Tells(table: seq<Arg>, s: State, es: seq<Event>) {
    && |s.counts| == |table| && (forall k :: 0 <= k < |table| ==> s.counts[k] == CountAfter(table, es, k))
    && AllRouted(HeadersOf(table), es) && s.errors == ErrorsOf(table, es)
  }

  /** The same.  This definition only unfolds where a proof mentions Unfold. */
  ghost predicate Telling(table: seq<Arg>, s: State, es: seq<Event>) {
    forall n {:trigger Unfold(n)} :: Unfold(n) ==> Tells(table, s, es)
  }

  /** After any reports the counts and the errors can be read off the reports. */
  lemma ChargesTell(table: seq<Arg>, start: State, es: seq<Event>)
    requires AllRouted(HeadersOf(table), es) && start == State(Zeros(|table|), [])
    ensures Tells(table, ChargeAll(table, start, es), es)
  {
    AllCharged(table, start, es);
    assert Unfold(0);
  }

  lemma {:induction false} AllCharged(table: seq<Arg>, start: State, es: seq<Event>)
    requires AllRouted(HeadersOf(table), es) && start == State(Zeros(|table|), [])
    ensures Telling(table, ChargeAll(table, start, es), es)
  {
    if es != [] {
      var n := |es| - 1;
      var done, e := es[..n], es[n];
      AllCharged(table, start, done);
      OneCharged(table, ChargeAll(table, start, done), done, e, es);
    }
  }

  lemma OneCharged(table: seq<Arg>, s: State, done: seq<Event>, e: Event, es: seq<Event>)
    requires |s.counts| == |table| && Telling(table, s, done)
    requires AllRouted(HeadersOf(table), es) && |es| == |done| + 1 && done == es[..|es| - 1] && e == es[|es| - 1]
    ensures Telling(table, Charge(table, s, e), es)
  {
    assert Unfold(0);
    ChargeTells(table, s, done, e, es);
  }

  lemma ChargeTells(table: seq<Arg>, s: State, done: seq<Event>, e: Event, es: seq<Event>)
    requires |s.counts| == |table| && Placed(HeadersOf(table), e)
    requires |es| == |done| + 1 && done == es[..|es| - 1] && e == es[|es| - 1]
    requires forall k :: 0 <= k < |table| ==> s.counts[k] == CountAfter(table, done, k)
    ensures var s' := Charge(table, s, e);
            && (forall k :: 0 <= k < |table| ==> s'.counts[k] == CountAfter(table, es, k))
            && s'.errors == s.errors + ErrorsAt(table, done, e)
  {
    ChargeCounts(table, s, e);
    ChargeErrors(table, s, done, e);
    forall k | 0 <= k < |table|
      ensures CountAfter(table, es, k) == CountWith(table, s.counts[k], e, k)
    {
      OneMoreReport(table, done, e, es, k);
    }
  }

  lemma ChargeCounts(table: seq<Arg>, s: State, e: Event)
    requires |s.counts| == |table| && Placed(HeadersOf(table), e)
    ensures forall k :: 0 <= k < |table| ==> Charge(table, s, e).counts[k] == CountWith(table, s.counts[k], e, k)
  {
    if e.code != QUESTION && e.code != COLON {
      ConcernsTarget(HeadersOf(table), e);
    }
  }

  lemma ChargeErrors(table: seq<Arg>, s: State, done: seq<Event>, e: Event)
    requires |s.counts| == |table| && Placed(HeadersOf(table), e)
    requires forall k :: 0 <= k < |table| ==> s.counts[k] == CountAfter(table, done, k)
    ensures Charge(table, s, e).errors == s.errors + ErrorsAt(table, done, e)
  {
    if e.code != QUESTION && e.code != COLON {
      ConcernsTarget(HeadersOf(table), e);
      ConcernsOne(HeadersOf(table), e);
    }
  }

  /** The count of entry k after one more report. */
  function CountWith(table: seq<Arg>, count: nat, e: Event, k: nat): nat
    requires k < |table|
  {
    var counts := Concerns(HeadersOf(table), e, k) && table[k].scans && table[k].verdict(e.optarg) == 0;
    if counts && count != table[k].maxcount then count + 1 else count
  }

  lemma OneMoreReport(table: seq<Arg>, done: seq<Event>, e: Event, es: seq<Event>, k: nat)
    requires k < |table| && |es| == |done| + 1 && done == es[..|es| - 1] && e == es[|es| - 1]
    ensures CountAfter(table, es, k) == CountWith(table, CountAfter(table, done, k), e, k)
  {}
}
