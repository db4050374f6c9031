/** What a command line means: a left-to-right parser that never moves an argument.
    It is the reference that the scanner of getopt.c is proved against.

    The syntax is that of section 12.2 of the Base Definitions volume of POSIX.1, with the GNU
    additions: long options, optional option arguments, and operands between options. */
module OptionSyntax {
  import opened Common

  /** struct option: hasArg is 0, 1 (required) or 2 (optional); with hasFlag, the value is stored
      through the flag pointer and getopt returns 0. */
  datatype LongOption = LongOption(name: string, hasArg: int, hasFlag: bool, val: int)

  datatype Ordering = RequireOrder | Permute | ReturnInOrder

  /** The arguments of _getopt_internal that stay the same over a scan, and whether
      POSIXLY_CORRECT is set.  `longopts` is None for plain getopt.  In the reading that is `steady`,
      every call takes the option letters after the leading sign; getopt.c is not. */
  datatype Config = Config(optstring: string, longopts: Option<seq<LongOption>>, posixlyCorrect: bool, steady: bool)

  /** What one call reports: the returned code, optarg, and what it writes to optopt, *longind and
      through the flag pointer, where it writes them; and the last argument that it consumes, if any. */
  datatype Event = Event(code: int, optarg: Option<string>, optopt: Option<int>,
                         longind: Option<int>, flagval: Option<int>, last: Option<string>)

  const QUESTION := '?' as int
  const COLON := ':' as int

  function OrderingOf(cfg: Config): Ordering {
    if At(cfg.optstring, 0) == '-' then ReturnInOrder
    else if At(cfg.optstring, 0) == '+' || cfg.posixlyCorrect then RequireOrder
    else Permute
  }

  /** The option letters of the first call and of later calls.  The leading '+' or '-' is only
      skipped by the call that initialises the scanner. */
  function Letters(cfg: Config, first: bool): string {
    if (first || cfg.steady) && (At(cfg.optstring, 0) == '-' || At(cfg.optstring, 0) == '+')
    then cfg.optstring[1..] else cfg.optstring
  }

  /** The reading is that of getopt.c, the "W;" extension is not used, and a long option whose value is
      returned does not use the end marker -1 as its value. */
  predicate Supported(cfg: Config) {
    && !cfg.steady
    && (forall k :: 0 <= k < |cfg.optstring| ==> !(cfg.optstring[k] == 'W' && At(cfg.optstring, k + 1) == ';'))
    && (cfg.longopts.Some? ==>
          forall o :: o in cfg.longopts.value ==> o.hasFlag || o.val != -1)
  }

  predicate IsOperand(arg: string) { At(arg, 0) != '-' || |arg| == 1 }

  predicate IsLong(cfg: Config, arg: string) { cfg.longopts.Some? && At(arg, 1) == '-' }

  // ---- Long options ----------------------------------------------------------------------

  datatype LongMatch = Known(index: nat) | Ambiguous | Unknown

  /** Length of the name part: up to the first '=' or the end. */
  function NameEnd(s: string): (n: nat)
    ensures n <= |s| && (n < |s| ==> s[n] == '=') && forall k :: 0 <= k < n ==> s[k] != '='
  {
    if |s| == 0 || s[0] == '=' then 0 else 1 + NameEnd(s[1..])
  }

  predicate Named(os: seq<LongOption>, i: int, name: string) { 0 <= i < |os| && os[i].name == name }

  predicate Abbreviated(os: seq<LongOption>, i: int, name: string) { 0 <= i < |os| && name <= os[i].name }

  /** An exact name wins (the first of equal names), else a unique abbreviation. */
  ghost predicate Means(os: seq<LongOption>, name: string, m: LongMatch) {
    match m
    case Known(i) =>
      || (Named(os, i, name) && forall j :: 0 <= j < i ==> !Named(os, j, name))
      || ((forall j :: !Named(os, j, name)) && Abbreviated(os, i, name)
          && forall j :: Abbreviated(os, j, name) ==> j == i)
    case Ambiguous =>
      && (forall j :: !Named(os, j, name))
      && exists i, j :: i != j && Abbreviated(os, i, name) && Abbreviated(os, j, name)
    case Unknown => forall j :: !Abbreviated(os, j, name)
  }

  lemma MeansUnique(os: seq<LongOption>, name: string, m: LongMatch, m': LongMatch)
    requires Means(os, name, m) && Means(os, name, m')
    ensures m == m'
  {
    assert forall j :: Named(os, j, name) ==> Abbreviated(os, j, name);
  }

  /** The search loop of _getopt_internal. */
  method FindLong(os: seq<LongOption>, name: string) returns (m: LongMatch)
    ensures Means(os, name, m)
  {
    var pfound := -1;
    var exact, ambig := false, false;
    var i := 0;
    while i < |os|
      invariant 0 <= i <= |os| && -1 <= pfound < i && !exact
      invariant forall j :: 0 <= j < i ==> !Named(os, j, name)
      invariant pfound == -1 ==> !ambig && forall j :: 0 <= j < i ==> !Abbreviated(os, j, name)
      invariant pfound >= 0 ==> Abbreviated(os, pfound, name)
      invariant pfound >= 0 && !ambig ==> forall j :: 0 <= j < i && Abbreviated(os, j, name) ==> j == pfound
      invariant ambig ==> exists j :: 0 <= j < i && j != pfound && Abbreviated(os, j, name)
    {
      if name <= os[i].name {
        assert Abbreviated(os, i, name);
        if |name| == |os[i].name| {
          assert Named(os, i, name);
          pfound, exact := i, true;
          break;
        } else if pfound == -1 {
          pfound := i;
        } else {
          ambig := true;
        }
      }
      i := i + 1;
    }
    if ambig && !exact {
      m := Ambiguous;
    } else if pfound >= 0 {
      m := Known(pfound);
    } else {
      m := Unknown;
    }
  }

  lemma {:induction false} FirstNamed(os: seq<LongOption>, name: string, i: int) returns (k: int)
    requires Named(os, i, name)
    ensures Named(os, k, name) && forall j :: 0 <= j < k ==> !Named(os, j, name)
    decreases i
  {
    k := i;
    if j :| 0 <= j < i && Named(os, j, name) {
      k := FirstNamed(os, name, j);
    }
  }

  lemma MeansSomething(os: seq<LongOption>, name: string)
    ensures exists m :: Means(os, name, m)
  {
    if i :| Named(os, i, name) {
      var k := FirstNamed(os, name, i);
      assert Means(os, name, Known(k));
    } else if i :| Abbreviated(os, i, name) {
      if j :| j != i && Abbreviated(os, j, name) {
        assert Means(os, name, Ambiguous);
      } else {
        assert Means(os, name, Known(i));
      }
    } else {
      assert Means(os, name, Unknown);
    }
  }

  ghost function Meaning(os: seq<LongOption>, name: string): (m: LongMatch)
    ensures Means(os, name, m)
    ensures m.Known? ==> m.index < |os|
  {
    MeansSomething(os, name);
    var m :| Means(os, name, m);
    m
  }

  function Complaint(code: int, opt: int): Event { Event(code, None, Some(opt), None, None, None) }

  function Missing(letters: string): int { if At(letters, 0) == ':' then COLON else QUESTION }

  function Plain(code: int, arg: Option<string>): Event { Event(code, arg, None, None, None, None) }

  function Success(o: LongOption, i: int, arg: Option<string>): Event {
    if o.hasFlag then Event(0, arg, None, Some(i), Some(o.val), None) else Event(o.val, arg, None, Some(i), None, None)
  }

  /** The report for the long option element "--" + text, and whether the next argument is its
      option argument. */
  ghost function LongEvent(cfg: Config, letters: string, text: string, next: Option<string>): (r: (Event, bool))
    requires cfg.longopts.Some?
    ensures r.1 ==> next.Some?
  {
    var os, n := cfg.longopts.value, NameEnd(text);
    LongDecision(letters, os, text, n, Meaning(os, text[..n]), next)
  }

  /** The same, for a name of n characters and what it means. */
  function LongDecision(letters: string, os: seq<LongOption>, text: string, n: nat, m: LongMatch, next: Option<string>):
    (r: (Event, bool))
    requires n <= |text| && (m.Known? ==> m.index < |os|)
    ensures r.1 ==> next.Some?
  {
    match m
    case Ambiguous => (Complaint(QUESTION, 0), false)
    case Unknown => (Complaint(QUESTION, 0), false)
    case Known(i) =>
      var o := os[i];
      if n < |text| then
        if o.hasArg != 0 then (Success(o, i, Some(text[n + 1..])), false) else (Complaint(QUESTION, o.val), false)
      else if o.hasArg != 1 then (Success(o, i, None), false)
      else if next.Some? then (Success(o, i, next), true)
      else (Complaint(Missing(letters), o.val), false)
  }

  // ---- Short options ---------------------------------------------------------------------

  /** my_index: where c first occurs in s, or |s|. */
  function IndexOf(s: string, c: char): (k: nat)
    ensures k <= |s| && (k < |s| ==> s[k] == c) && forall j :: 0 <= j < k ==> s[j] != c
  {
    if |s| == 0 || s[0] == c then 0 else 1 + IndexOf(s[1..], c)
  }

  /** The report for the first letter of the cluster `text`, the letters still to be read, and
      whether the next argument is its option argument. */
  function ShortEvent(letters: string, text: string, next: Option<string>): (r: (Event, string, bool))
    requires text != ""
    ensures |r.1| < |text| && (r.2 ==> r.1 == "" && next.Some?)
  {
    var c, rest := text[0], text[1..];
    var k := IndexOf(letters, c);
    if k == |letters| || c == ':' then (Complaint(QUESTION, c as int), rest, false)
    else if At(letters, k + 1) != ':' then (Plain(c as int, None), rest, false)
    else if rest != "" then (Plain(c as int, Some(rest)), "", false)
    else if At(letters, k + 2) == ':' then (Plain(c as int, None), "", false)
    else if next.Some? then (Plain(c as int, next), "", true)
    else (Complaint(Missing(letters), c as int), "", false)
  }

  // ---- Command lines ---------------------------------------------------------------------

  /** The reports, the arguments that belong to options (with the options, and `--`), and the
      operands, each in their original order. */
  datatype Parsed = Parsed(events: seq<Event>, options: seq<string>, operands: seq<string>)

  function Last(args: seq<string>): Option<string> { if args == [] then None else Some(args[|args| - 1]) }

  /** A report that consumes these arguments. */
  function Report(e: Event, options: seq<string>, r: Parsed): Parsed {
    Parsed([e.(last := Last(options))] + r.events, options + r.options, r.operands)
  }

  function Argument(args: seq<string>, i: nat): Option<string> {
    if i < |args| then Some(args[i]) else None
  }

  /** The arguments from position i on.  `first` tells whether nothing has been reported yet. */
  ghost function Parse(cfg: Config, args: seq<string>, i: nat, first: bool): Parsed
    requires i <= |args|
    decreases |args| - i, 1, 0
  {
    if i == |args| then Parsed([], [], [])
    else if args[i] == "--" then Parsed([], ["--"], args[i + 1..])
    else if IsOperand(args[i]) then
      match OrderingOf(cfg)
      case RequireOrder => Parsed([], [], args[i..])
      case Permute =>
        var r := Parse(cfg, args, i + 1, first);
        Parsed(r.events, r.options, [args[i]] + r.operands)
      case ReturnInOrder =>
        Report(Plain(1, Some(args[i])), [args[i]], Parse(cfg, args, i + 1, false))
    else if IsLong(cfg, args[i]) then
      var (e, takesNext) := LongEvent(cfg, Letters(cfg, first), args[i][2..], Argument(args, i + 1));
      var n := if takesNext then i + 2 else i + 1;
      Report(e, args[i..n], Parse(cfg, args, n, false))
    else ParseCluster(cfg, args, i, args[i][1..], first)
  }

  /** The same, in the middle of the cluster of short options in argument i: `text` is unread. */
  ghost function ParseCluster(cfg: Config, args: seq<string>, i: nat, text: string, first: bool): Parsed
    requires i < |args| && text != ""
    decreases |args| - i, 0, |text|
  {
    var (e, rest, takesNext) := ShortEvent(Letters(cfg, first), text, Argument(args, i + 1));
    if rest != "" then
      Report(e, [], ParseCluster(cfg, args, i, rest, false))
    else
      var n := if takesNext then i + 2 else i + 1;
      Report(e, args[i..n], Parse(cfg, args, n, false))
  }

  // ---- What parsing does to the arguments ------------------------------------------------

  /** s is an interleaving of a and b. */
  ghost predicate Interleaves(s: seq<string>, a: seq<string>, b: seq<string>)
    decreases |s|
  {
    if s == [] then
      a == [] && b == []
    else
      || (a != [] && a[0] == s[0] && Interleaves(s[1..], a[1..], b))
      || (b != [] && b[0] == s[0] && Interleaves(s[1..], a, b[1..]))
  }

  lemma {:induction false} InterleavesLeft(p: seq<string>, s: seq<string>, a: seq<string>, b: seq<string>)
    requires Interleaves(s, a, b)
    ensures Interleaves(p + s, p + a, b)
    decreases |p|
  {
    if p == [] {
      assert p + s == s && p + a == a;
    } else {
      InterleavesLeft(p[1..], s, a, b);
      assert (p + s)[1..] == p[1..] + s && (p + a)[1..] == p[1..] + a;
    }
  }

  lemma {:induction false} InterleavesRight(s: seq<string>)
    ensures Interleaves(s, [], s)
    decreases |s|
  {
    if s != [] {
      InterleavesRight(s[1..]);
    }
  }

  lemma {:induction false} InterleavesPermutes(s: seq<string>, a: seq<string>, b: seq<string>)
    requires Interleaves(s, a, b)
    ensures multiset(s) == multiset(a) + multiset(b) && |s| == |a| + |b|
    decreases |s|
  {
    if s != [] {
      assert s == [s[0]] + s[1..];
      if a != [] && a[0] == s[0] && Interleaves(s[1..], a[1..], b) {
        assert a == [a[0]] + a[1..];
        InterleavesPermutes(s[1..], a[1..], b);
      } else {
        assert b == [b[0]] + b[1..];
        InterleavesPermutes(s[1..], a, b[1..]);
      }
    }
  }

  /** Options and operands together are the arguments, and neither kind is reordered. */
  lemma {:induction false} ParseInterleaves(cfg: Config, args: seq<string>, i: nat, first: bool)
    requires i <= |args|
    ensures var r := Parse(cfg, args, i, first); Interleaves(args[i..], r.options, r.operands)
    decreases |args| - i, 1, 0
  {
    if i == |args| {
    } else if args[i] == "--" {
      InterleavesRight(args[i + 1..]);
      InterleavesLeft(["--"], args[i + 1..], [], args[i + 1..]);
      assert args[i..] == ["--"] + args[i + 1..] && ["--"] + [] == ["--"];
    } else if IsOperand(args[i]) {
      assert args[i..] == [args[i]] + args[i + 1..];
      match OrderingOf(cfg)
      case RequireOrder => InterleavesRight(args[i..]);
      case Permute => ParseInterleaves(cfg, args, i + 1, first);
      case ReturnInOrder =>
        ParseInterleaves(cfg, args, i + 1, false);
        assert args[i..i + 1] == [args[i]];
        TakenInterleaves(args, i, i + 1, Plain(1, Some(args[i])), Parse(cfg, args, i + 1, false));
    } else if IsLong(cfg, args[i]) {
      var (e, takesNext) := LongEvent(cfg, Letters(cfg, first), args[i][2..], Argument(args, i + 1));
      var n := if takesNext then i + 2 else i + 1;
      assert n <= |args|;
      ParseInterleaves(cfg, args, n, false);
      TakenInterleaves(args, i, n, e, Parse(cfg, args, n, false));
    } else {
      ClusterInterleaves(cfg, args, i, args[i][1..], first);
    }
  }

  lemma {:induction false} ClusterInterleaves(cfg: Config, args: seq<string>, i: nat, text: string, first: bool)
    requires i < |args| && text != ""
    ensures var r := ParseCluster(cfg, args, i, text, first); Interleaves(args[i..], r.options, r.operands)
    decreases |args| - i, 0, |text|
  {
    var (e, rest, takesNext) := ShortEvent(Letters(cfg, first), text, Argument(args, i + 1));
    if rest != "" {
      ClusterInterleaves(cfg, args, i, rest, false);
      var r := ParseCluster(cfg, args, i, rest, false);
      assert [] + r.options == r.options;
    } else {
      var n := if takesNext then i + 2 else i + 1;
      ParseInterleaves(cfg, args, n, false);
      TakenInterleaves(args, i, n, e, Parse(cfg, args, n, false));
    }
  }

  /** Arguments that belong to options come in front of what follows. */
  lemma TakenInterleaves(args: seq<string>, i: nat, n: nat, e: Event, r: Parsed)
    requires i <= n <= |args| && Interleaves(args[n..], r.options, r.operands)
    ensures Interleaves(args[i..], Report(e, args[i..n], r).options, Report(e, args[i..n], r).operands)
  {
    InterleavesLeft(args[i..n], args[n..], r.options, r.operands);
    assert args[i..] == args[i..n] + args[n..];
  }

  /** The operands are words without option syntax, followed by the arguments from k on, which are none or
      stand behind a "--". */
  ghost predicate WordsThenRest(args: seq<string>, operands: seq<string>, pre: seq<string>, k: nat) {
    && k <= |args| && operands == pre + args[k..] && (k < |args| ==> k > 0 && args[k - 1] == "--")
    && forall a :: a in pre ==> IsOperand(a)
  }

  lemma OneMoreWord(args: seq<string>, operands: seq<string>, pre: seq<string>, k: nat, word: string)
    requires WordsThenRest(args, operands, pre, k) && IsOperand(word)
    ensures WordsThenRest(args, [word] + operands, [word] + pre, k)
  {
    Associative([word], pre, args[k..]);
    assert forall a :: a in [word] + pre <==> a == word || a in pre;
  }

  lemma ParseOperand(cfg: Config, args: seq<string>, i: nat, first: bool)
    requires i < |args| && IsOperand(args[i]) && OrderingOf(cfg) == Permute
    ensures Parse(cfg, args, i, first).operands == [args[i]] + Parse(cfg, args, i + 1, first).operands
  {}

  lemma ParseLong(cfg: Config, args: seq<string>, i: nat, first: bool) returns (n: nat)
    requires i < |args| && !IsOperand(args[i]) && args[i] != "--" && IsLong(cfg, args[i])
    ensures i < n <= |args| && Parse(cfg, args, i, first).operands == Parse(cfg, args, n, false).operands
  {
    var (e, takesNext) := LongEvent(cfg, Letters(cfg, first), args[i][2..], Argument(args, i + 1));
    n := if takesNext then i + 2 else i + 1;
  }

  lemma {:induction false} ParseLetters(cfg: Config, args: seq<string>, i: nat, text: string, first: bool)
    returns (n: nat)
    requires i < |args| && text != ""
    ensures i < n <= |args| && ParseCluster(cfg, args, i, text, first).operands == Parse(cfg, args, n, false).operands
    decreases |text|
  {
    var (e, rest, takesNext) := ShortEvent(Letters(cfg, first), text, Argument(args, i + 1));
    if rest != "" {
      n := ParseLetters(cfg, args, i, rest, false);
    } else {
      n := if takesNext then i + 2 else i + 1;
    }
  }

  /** What stands at an option does not change the operands. */
  lemma ParseOption(cfg: Config, args: seq<string>, i: nat, first: bool) returns (n: nat)
    requires i < |args| && !IsOperand(args[i]) && args[i] != "--"
    ensures i < n <= |args| && Parse(cfg, args, i, first).operands == Parse(cfg, args, n, false).operands
  {
    if IsLong(cfg, args[i]) {
      n := ParseLong(cfg, args, i, first);
    } else {
      n := ParseLetters(cfg, args, i, args[i][1..], first);
    }
  }

  lemma ParseEnd(cfg: Config, args: seq<string>, i: nat, first: bool) returns (k: nat)
    requires i <= |args| && (i < |args| ==> args[i] == "--")
    ensures WordsThenRest(args, Parse(cfg, args, i, first).operands, [], k)
  {
    k := if i < |args| then i + 1 else i;
    assert [] + args[k..] == args[k..];
  }

  /** In PERMUTE mode the operands are arguments without option syntax, up to a "--" that ends the options,
      and everything after it. */
  lemma {:induction false} OperandsLookLikeOperands(cfg: Config, args: seq<string>, i: nat, first: bool)
    returns (pre: seq<string>, k: nat)
    requires i <= |args| && OrderingOf(cfg) == Permute
    ensures WordsThenRest(args, Parse(cfg, args, i, first).operands, pre, k)
    decreases |args| - i
  {
    if i == |args| || args[i] == "--" {
      pre := [];
      k := ParseEnd(cfg, args, i, first);
    } else if IsOperand(args[i]) {
      pre, k := OperandsLookLikeOperands(cfg, args, i + 1, first);
      ParseOperand(cfg, args, i, first);
      OneMoreWord(args, Parse(cfg, args, i + 1, first).operands, pre, k, args[i]);
      pre := [args[i]] + pre;
    } else {
      var n := ParseOption(cfg, args, i, first);
      pre, k := OperandsLookLikeOperands(cfg, args, n, false);
    }
  }
}
