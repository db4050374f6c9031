/** Command lines as they are written, option by option, and what a scan reports of them
    (libargtable/getopt.c).  Every command line is written in this way. */
module OptionLines {
  import opened Common
  import opened OptionSyntax

  // ---- Option letters --------------------------------------------------------------------

  /** The letter is declared at p, where it occurs first. */
  predicate DeclaredAt(letters: string, c: char, p: int) {
    0 <= p < |letters| && letters[p] == c && c != ':' && c !in letters[..p]
  }

  /** An option that takes no value, must have one, or may have one: no, one or two colons follow. */
  ghost predicate TakesNone(letters: string, c: char) {
    exists p :: DeclaredAt(letters, c, p) && At(letters, p + 1) != ':'
  }

  ghost predicate TakesOne(letters: string, c: char) {
    exists p :: DeclaredAt(letters, c, p) && At(letters, p + 1) == ':' && At(letters, p + 2) != ':'
  }

  ghost predicate MayTakeOne(letters: string, c: char) {
    exists p :: DeclaredAt(letters, c, p) && At(letters, p + 1) == ':' && At(letters, p + 2) == ':'
  }

  predicate Undeclared(letters: string, c: char) { c == ':' || c !in letters }

  // ---- Items -----------------------------------------------------------------------------

  /** How a cluster of letters ends: not with a value, with a letter and its value in the same word, with a
      letter that may have a value but has none, with a letter and its value in the next word, or with a
      letter whose value is missing. */
  datatype Ending = Nothing | Attached(c: char, value: string) | Without(c: char) | Separate(c: char, value: string)
                  | Missing(c: char)
  {
    function Text(): string {
      match this
      case Nothing => ""
      case Attached(c, value) => [c] + value
      case _ => [this.c]
    }

    function Next(): seq<string> { if Separate? then [value] else [] }
  }

  /** A long option by itself, with its value behind an equals sign, or with the next word as its value. */
  datatype LongValue = Bare | Equals(value: string) | Behind(value: string)

  datatype Item = Cluster(flags: string, end: Ending)
                | Long(name: string, value: LongValue, found: LongMatch)
                | Operand(word: string)
  {
    function Words(): seq<string> {
      match this
      case Cluster(flags, end) => ["-" + (flags + end.Text())] + end.Next()
      case Long(name, Bare, _) => ["--" + name]
      case Long(name, Equals(v), _) => ["--" + (name + ("=" + v))]
      case Long(name, Behind(v), _) => ["--" + name, v]
      case Operand(word) => [word]
    }
  }

  /** How a line ends: after its last item, with a -- and operands, or where the scan must stop at an operand. */
  datatype Tail = End | Dashes(words: seq<string>) | Stop(words: seq<string>) {
    function Words(): seq<string> {
      match this
      case End => []
      case Dashes(words) => ["--"] + words
      case Stop(words) => words
    }
  }

  datatype Line = Line(items: seq<Item>, tail: Tail)

  function Written(items: seq<Item>, tail: Tail): seq<string> {
    if items == [] then tail.Words() else items[0].Words() + Written(items[1..], tail)
  }

  predicate InOrder(cfg: Config) { At(cfg.optstring, 0) == '-' }

  predicate StopsEarly(cfg: Config) { !InOrder(cfg) && (At(cfg.optstring, 0) == '+' || cfg.posixlyCorrect) }

  // ---- Which lines are written so --------------------------------------------------------

  /** The letters of a cluster have no value, or are no options; the ending is as its letter is declared. */
  ghost predicate ClusterFits(cfg: Config, first: bool, flags: string, end: Ending, more: bool)
    decreases |flags|
  {
    var letters := Letters(cfg, first);
    if flags != "" then
      (TakesNone(letters, flags[0]) || Undeclared(letters, flags[0])) && ClusterFits(cfg, false, flags[1..], end, more)
    else
      match end
      case Nothing => true
      case Attached(c, value) => value != "" && (TakesOne(letters, c) || MayTakeOne(letters, c))
      case Without(c) => MayTakeOne(letters, c)
      case Separate(c, _) => TakesOne(letters, c)
      case Missing(c) => TakesOne(letters, c) && !more
  }

  /** The name means what is said, and has the value in the next word only if it must have one there. */
  ghost predicate LongFits(cfg: Config, name: string, value: LongValue, found: LongMatch, more: bool) {
    && cfg.longopts.Some? && '=' !in name && Means(cfg.longopts.value, name, found)
    && var required := found.Known? && cfg.longopts.value[found.index].hasArg == 1;
       match value
       case Bare => name != "" && !(required && more)
       case Equals(_) => true
       case Behind(_) => name != "" && required
  }

  ghost predicate Fits(cfg: Config, first: bool, item: Item, more: bool) {
    match item
    case Cluster(flags, end) =>
      var text := flags + end.Text();
      && text != "" && text != "-" && (text[0] == '-' ==> cfg.longopts.None?)
      && ClusterFits(cfg, first, flags, end, more)
    case Long(name, value, found) => LongFits(cfg, name, value, found, more)
    case Operand(word) => (word == "" || word[0] != '-' || word == "-") && !StopsEarly(cfg)
  }

  /** Whether nothing has been reported after the item. */
  predicate StillFirst(cfg: Config, first: bool, item: Item) { first && item.Operand? && !InOrder(cfg) }

  ghost predicate LineFits(cfg: Config, first: bool, items: seq<Item>, tail: Tail)
    decreases |items|
  {
    if items != [] then
      && Fits(cfg, first, items[0], Written(items[1..], tail) != [])
      && LineFits(cfg, StillFirst(cfg, first, items[0]), items[1..], tail)
    else
      tail.Stop? ==> StopsEarly(cfg) && tail.words != [] && IsOperand(tail.words[0])
  }

  // ---- What is reported ------------------------------------------------------------------

  function LetterReport(letters: string, c: char, last: Option<string>): Event {
    if Undeclared(letters, c) then Event('?' as int, None, Some(c as int), None, None, last)
    else Event(c as int, None, None, None, None, last)
  }

  /** A complaint about a missing value is a colon if the option letters begin with one. */
  function MissingCode(letters: string): int { if At(letters, 0) == ':' then ':' as int else '?' as int }

  function EndReports(letters: string, word: string, end: Ending): seq<Event> {
    match end
    case Nothing => []
    case Attached(c, value) => [Event(c as int, Some(value), None, None, None, Some(word))]
    case Without(c) => [Event(c as int, None, None, None, None, Some(word))]
    case Separate(c, value) => [Event(c as int, Some(value), None, None, None, Some(value))]
    case Missing(c) => [Event(MissingCode(letters), None, Some(c as int), None, None, Some(word))]
  }

  function ClusterReports(cfg: Config, first: bool, word: string, flags: string, end: Ending): seq<Event>
    decreases |flags|
  {
    if flags == "" then EndReports(Letters(cfg, first), word, end)
    else
      var last := if |flags| == 1 && end.Nothing? then Some(word) else None;
      [LetterReport(Letters(cfg, first), flags[0], last)] + ClusterReports(cfg, false, word, flags[1..], end)
  }

  /** A found option stores its value through its flag and returns 0, or returns it. */
  function FoundReport(o: LongOption, index: int, arg: Option<string>, last: string): Event {
    if o.hasFlag then Event(0, arg, None, Some(index), Some(o.val), Some(last))
    else Event(o.val, arg, None, Some(index), None, Some(last))
  }

  function LongReport(letters: string, os: seq<LongOption>, word: string, value: LongValue, found: LongMatch): Event
    requires found.Known? ==> found.index < |os|
  {
    if !found.Known? then Event('?' as int, None, Some(0), None, None, Some(word))
    else
      var o := os[found.index];
      match value
      case Behind(v) => FoundReport(o, found.index, Some(v), v)
      case Equals(v) =>
        if o.hasArg == 0 then Event('?' as int, None, Some(o.val), None, None, Some(word))
        else FoundReport(o, found.index, Some(v), word)
      case Bare =>
        if o.hasArg == 1 then Event(MissingCode(letters), None, Some(o.val), None, None, Some(word))
        else FoundReport(o, found.index, None, word)
  }

  ghost function Reports(cfg: Config, first: bool, item: Item, more: bool): seq<Event>
    requires Fits(cfg, first, item, more)
  {
    match item
    case Cluster(flags, end) => ClusterReports(cfg, first, item.Words()[0], flags, end)
    case Long(_, value, found) =>
      [LongReport(Letters(cfg, first), cfg.longopts.value, item.Words()[0], value, found)]
    case Operand(word) => if InOrder(cfg) then [Event(1, Some(word), None, None, None, Some(word))] else []
  }

  /** The reports of the line, the words that belong to options, and the operands. */
  ghost function Scanned(cfg: Config, first: bool, items: seq<Item>, tail: Tail): Parsed
    requires LineFits(cfg, first, items, tail)
    decreases |items|
  {
    if items == [] then
      match tail
      case End => Parsed([], [], [])
      case Dashes(words) => Parsed([], ["--"], words)
      case Stop(words) => Parsed([], [], words)
    else
      var item, more := items[0], Written(items[1..], tail) != [];
      var r := Scanned(cfg, StillFirst(cfg, first, item), items[1..], tail);
      if item.Operand? && !InOrder(cfg) then Parsed(r.events, r.options, [item.word] + r.operands)
      else Parsed(Reports(cfg, first, item, more) + r.events, item.Words() + r.options, r.operands)
  }

  /** The arguments are what the line is written as. */
  ghost predicate Writes(cfg: Config, line: Line, args: seq<string>) {
    LineFits(cfg, true, line.items, line.tail) && args == Written(line.items, line.tail)
  }

  // ---- One letter ------------------------------------------------------------------------

  lemma FirstPlace(letters: string, c: char, p: int)
    requires DeclaredAt(letters, c, p)
    ensures IndexOf(letters, c) == p
  {
    assert forall k :: 0 <= k < p ==> letters[k] == letters[..p][k];
  }

  lemma NoPlace(letters: string, c: char)
    requires c !in letters
    ensures IndexOf(letters, c) == |letters|
  {}

  lemma LetterReads(letters: string, c: char, rest: string, text: string, next: Option<string>)
    requires text == [c] + rest && (TakesNone(letters, c) || Undeclared(letters, c))
    ensures ShortEvent(letters, text, next) == (LetterReport(letters, c, None), rest, false)
  {
    assert text[1..] == rest;
    if Undeclared(letters, c) {
      if c !in letters {
        NoPlace(letters, c);
      }
    } else {
      var p :| DeclaredAt(letters, c, p) && At(letters, p + 1) != ':';
      FirstPlace(letters, c, p);
    }
  }

  /** The ending of a cluster, with the first of the words behind it. */
  lemma EndReads(cfg: Config, first: bool, end: Ending, more: bool, next: Option<string>, word: string)
    requires ClusterFits(cfg, first, "", end, more) && !end.Nothing?
    requires (end.Separate? ==> next == Some(end.value)) && (end.Missing? ==> next == None)
    ensures var (e, rest, takesNext) := ShortEvent(Letters(cfg, first), end.Text(), next);
            && rest == "" && takesNext == end.Separate?
            && EndReports(Letters(cfg, first), word, end)
            == [e.(last := if end.Separate? then Some(end.value) else Some(word))]
  {
    var letters := Letters(cfg, first);
    var value := if end.Attached? then end.value else "";
    EndText(end, value);
    ValueReads(letters, end.c, value, end.Text(), next);
  }

  lemma EndText(end: Ending, value: string)
    requires !end.Nothing? && value == if end.Attached? then end.value else ""
    ensures end.Text() == [end.c] + value
  {}

  /** A letter that takes a value, or may take one. */
  lemma ValueReads(letters: string, c: char, value: string, text: string, next: Option<string>)
    requires text == [c] + value && (TakesOne(letters, c) || MayTakeOne(letters, c))
    ensures ShortEvent(letters, text, next)
         == if value != "" then (Event(c as int, Some(value), None, None, None, None), "", false)
            else if MayTakeOne(letters, c) then (Event(c as int, None, None, None, None, None), "", false)
            else if next.Some? then (Event(c as int, next, None, None, None, None), "", true)
            else (Event(MissingCode(letters), None, Some(c as int), None, None, None), "", false)
  {
    OneDeclaration(letters, c);
    assert text[1..] == value;
    var p: int;
    if TakesOne(letters, c) {
      p :| DeclaredAt(letters, c, p) && At(letters, p + 1) == ':' && At(letters, p + 2) != ':';
    } else {
      p :| DeclaredAt(letters, c, p) && At(letters, p + 1) == ':' && At(letters, p + 2) == ':';
    }
    FirstPlace(letters, c, p);
  }

  lemma OneDeclaration(letters: string, c: char)
    ensures !(TakesOne(letters, c) && MayTakeOne(letters, c))
  {
    forall p, q | DeclaredAt(letters, c, p) && DeclaredAt(letters, c, q)
      ensures p == q
    {
      FirstPlace(letters, c, p);
      FirstPlace(letters, c, q);
    }
  }

  // ---- One item --------------------------------------------------------------------------

  /** These arguments, and what follows them. */
  function Consumed(events: seq<Event>, options: seq<string>, r: Parsed): Parsed {
    Parsed(events + r.events, options + r.options, r.operands)
  }

  lemma OneConsumed(e: Event, options: seq<string>, r: Parsed)
    ensures Report(e, options, r) == Consumed([e.(last := Last(options))], options, r)
  {}

  lemma ConsumedAfter(e: Event, events: seq<Event>, options: seq<string>, r: Parsed)
    ensures Report(e, [], Consumed(events, options, r)) == Consumed([e.(last := None)] + events, options, r)
  {
    assert [e.(last := None)] + (events + r.events) == ([e.(last := None)] + events) + r.events;
    assert [] + (options + r.options) == options + r.options;
  }

  /** What the letters from here on are read as.  The definition only unfolds where a proof mentions Unfold. */
  ghost predicate ClusterIs(cfg: Config, args: seq<string>, i: nat, text: string, first: bool, p: Parsed)
    requires i < |args| && text != ""
  {
    forall n {:trigger Unfold(n)} :: Unfold(n) ==> ParseCluster(cfg, args, i, text, first) == p
  }

  lemma LetterGoesOn(cfg: Config, args: seq<string>, i: nat, first: bool, c: char, rest: string, text: string,
                     events: seq<Event>, options: seq<string>, r: Parsed)
    requires i < |args| && text == [c] + rest && rest != ""
    requires TakesNone(Letters(cfg, first), c) || Undeclared(Letters(cfg, first), c)
    requires ClusterIs(cfg, args, i, rest, false, Consumed(events, options, r))
    ensures ClusterIs(cfg, args, i, text, first,
                      Consumed([LetterReport(Letters(cfg, first), c, None)] + events, options, r))
  {
    assert Unfold(0);
    LetterReads(Letters(cfg, first), c, rest, text, Argument(args, i + 1));
    ConsumedAfter(LetterReport(Letters(cfg, first), c, None), events, options, r);
  }

  lemma LetterEnds(cfg: Config, args: seq<string>, i: nat, n: nat, first: bool, c: char, text: string, r: Parsed)
    requires i < |args| && n == i + 1 && r == Parse(cfg, args, n, false) && text == [c]
    requires TakesNone(Letters(cfg, first), c) || Undeclared(Letters(cfg, first), c)
    ensures ClusterIs(cfg, args, i, text, first,
                      Consumed([LetterReport(Letters(cfg, first), c, Some(args[i]))], args[i..n], r))
  {
    assert text == [c] + "" && args[i..n] == [args[i]];
    LetterReads(Letters(cfg, first), c, "", text, Argument(args, n));
    OneConsumed(LetterReport(Letters(cfg, first), c, None), args[i..n], r);
  }

  lemma EndingEnds(cfg: Config, args: seq<string>, i: nat, first: bool, end: Ending, n: nat, text: string, r: Parsed)
    requires i < n <= |args| && args[i..n] == [args[i]] + end.Next() && !end.Nothing? && text == end.Text()
    requires ClusterFits(cfg, first, "", end, n < |args|) && r == Parse(cfg, args, n, false)
    ensures ClusterIs(cfg, args, i, text, first, Consumed(EndReports(Letters(cfg, first), args[i], end), args[i..n], r))
  {
    NextWord(args, i, n, end);
    EndReads(cfg, first, end, n < |args|, Argument(args, i + 1), args[i]);
    var (e, rest, takesNext) := ShortEvent(Letters(cfg, first), text, Argument(args, i + 1));
    ShortElement(cfg, args, i, n, first, text, e, e.(last := Last(args[i..n])), r);
  }

  lemma NextWord(args: seq<string>, i: nat, n: nat, end: Ending)
    requires i < n <= |args| && args[i..n] == [args[i]] + end.Next()
    ensures n == if end.Separate? then i + 2 else i + 1
    ensures Last(args[i..n]) == Some(if end.Separate? then end.value else args[i])
    ensures end.Separate? ==> args[i + 1] == end.value
  {
    var words := args[i..n];
    assert |words| == n - i && (end.Separate? ==> words[1] == args[i + 1]);
  }

  lemma ShortElement(cfg: Config, args: seq<string>, i: nat, n: nat, first: bool, text: string, e: Event, e': Event,
                     r: Parsed)
    requires i < n <= |args| && text != "" && r == Parse(cfg, args, n, false) && e' == e.(last := Last(args[i..n]))
    requires ShortEvent(Letters(cfg, first), text, Argument(args, i + 1)) == (e, "", n == i + 2) && n <= i + 2
    ensures ClusterIs(cfg, args, i, text, first, Consumed([e'], args[i..n], r))
  {
    OneConsumed(e, args[i..n], r);
  }

  /** A cluster is read as its letters. */
  lemma {:induction false} ClusterReads(cfg: Config, args: seq<string>, i: nat, first: bool, flags: string, end: Ending,
                                        n: nat, text: string, r: Parsed) returns (events: seq<Event>)
    requires i < n <= |args| && args[i..n] == [args[i]] + end.Next() && text == flags + end.Text() && text != ""
    requires ClusterFits(cfg, first, flags, end, n < |args|) && r == Parse(cfg, args, n, false)
    ensures ClusterIs(cfg, args, i, text, first, Consumed(events, args[i..n], r))
    ensures events == ClusterReports(cfg, first, args[i], flags, end)
    decreases |flags|
  {
    if flags == "" {
      assert text == end.Text();
      EndingEnds(cfg, args, i, first, end, n, text, r);
      events := EndReports(Letters(cfg, first), args[i], end);
    } else {
      var c, more := FirstFlag(cfg, first, flags, end, n < |args|);
      var rest := more + end.Text();
      ClusterReport(cfg, first, args[i], flags, c, more, end);
      if rest == "" {
        events := LastFlag(cfg, args, i, n, first, c, end, text, r);
      } else {
        var others := ClusterReads(cfg, args, i, false, more, end, n, rest, r);
        TextBehind(flags, c, more, end, text);
        LetterGoesOn(cfg, args, i, first, c, rest, text, others, args[i..n], r);
        events := [LetterReport(Letters(cfg, first), c, None)] + others;
      }
    }
  }

  lemma TextBehind(flags: string, c: char, more: string, end: Ending, text: string)
    requires flags == [c] + more && text == flags + end.Text()
    ensures text == [c] + (more + end.Text())
  {}

  lemma FirstFlag(cfg: Config, first: bool, flags: string, end: Ending, more: bool) returns (c: char, rest: string)
    requires flags != "" && ClusterFits(cfg, first, flags, end, more)
    ensures c == flags[0] && rest == flags[1..] && flags == [c] + rest && ClusterFits(cfg, false, rest, end, more)
    ensures TakesNone(Letters(cfg, first), c) || Undeclared(Letters(cfg, first), c)
  {
    c, rest := flags[0], flags[1..];
  }

  lemma LastFlag(cfg: Config, args: seq<string>, i: nat, n: nat, first: bool, c: char, end: Ending, text: string,
                 r: Parsed) returns (events: seq<Event>)
    requires i < n <= |args| && args[i..n] == [args[i]] + end.Next() && end.Nothing? && text == [c]
    requires r == Parse(cfg, args, n, false)
    requires TakesNone(Letters(cfg, first), c) || Undeclared(Letters(cfg, first), c)
    ensures ClusterIs(cfg, args, i, text, first, Consumed(events, args[i..n], r))
    ensures events == [LetterReport(Letters(cfg, first), c, Some(args[i]))]
  {
    assert |args[i..n]| == 1;
    LetterEnds(cfg, args, i, n, first, c, text, r);
    events := [LetterReport(Letters(cfg, first), c, Some(args[i]))];
  }

  lemma ClusterReport(cfg: Config, first: bool, word: string, flags: string, c: char, more: string, end: Ending)
    requires flags != "" && c == flags[0] && more == flags[1..]
    ensures more + end.Text() == "" ==> end.Nothing? && more == ""
    ensures ClusterReports(cfg, first, word, flags, end)
         == if more + end.Text() == "" then [LetterReport(Letters(cfg, first), c, Some(word))]
            else [LetterReport(Letters(cfg, first), c, None)] + ClusterReports(cfg, false, word, more, end)
  {
    assert end.Text() == "" <==> end.Nothing?;
    if more + end.Text() == "" {
      assert more == "" && ClusterReports(cfg, false, word, more, end) == [];
    }
  }

  lemma NameEnds(name: string, rest: string)
    requires '=' !in name && (rest != "" ==> rest[0] == '=')
    ensures NameEnd(name + rest) == |name| && (name + rest)[..|name|] == name && (name + rest)[|name|..] == rest
  {
    var text := name + rest;
    var n := NameEnd(text);
    assert forall k :: 0 <= k < |name| ==> text[k] == name[k];
    assert rest != "" ==> text[|name|] == rest[0];
  }

  /** A long option is read by its name and its value. */
  lemma LongReads(cfg: Config, first: bool, item: Item, more: bool, next: Option<string>, text: string, word: string)
    requires item.Long? && LongFits(cfg, item.name, item.value, item.found, more)
    requires text == item.name + (if item.value.Equals? then "=" + item.value.value else "")
    requires if item.value.Behind? then next == Some(item.value.value) else next.Some? == more
    ensures var (e, takesNext) := LongEvent(cfg, Letters(cfg, first), text, next);
            && takesNext == item.value.Behind?
            && LongReport(Letters(cfg, first), cfg.longopts.value, word, item.value, item.found)
            == e.(last := Some(if takesNext then item.value.value else word))
  {
    var os, name := cfg.longopts.value, item.name;
    NameEnds(name, if item.value.Equals? then "=" + item.value.value else "");
    MeansUnique(os, name, item.found, Meaning(os, name));
    if item.value.Equals? {
      BehindEquals(name, item.value.value, text);
    }
    LongDecides(Letters(cfg, first), os, item.value, item.found, next, text, |name|, word);
  }

  lemma BehindEquals(name: string, v: string, text: string)
    requires text == name + ("=" + v)
    ensures |name| < |text| && text[|name| + 1..] == v
  {}

  lemma LongDecides(letters: string, os: seq<LongOption>, value: LongValue, found: LongMatch, next: Option<string>,
                    text: string, n: nat, word: string)
    requires found.Known? ==> found.index < |os|
    requires if value.Equals? then n < |text| && text[n + 1..] == value.value else n == |text|
    requires value.Behind? ==> next == Some(value.value) && found.Known? && os[found.index].hasArg == 1
    requires value.Bare? && found.Known? && os[found.index].hasArg == 1 ==> next.None?
    ensures var (e, takesNext) := LongDecision(letters, os, text, n, found, next);
            && takesNext == value.Behind?
            && LongReport(letters, os, word, value, found)
            == e.(last := Some(if takesNext then value.value else word))
  {}

  /** The words of the item stand at i, before n. */
  ghost predicate StandsAt(args: seq<string>, i: nat, n: nat, item: Item) {
    i < n <= |args| && args[i..n] == item.Words()
  }

  /** What the arguments from here on are read as.  The definition only unfolds where a proof mentions Unfold. */
  ghost predicate ParseIs(cfg: Config, args: seq<string>, i: nat, first: bool, p: Parsed)
    requires i <= |args|
  {
    forall n {:trigger Unfold(n)} :: Unfold(n) ==> Parse(cfg, args, i, first) == p
  }

  lemma AtCluster(cfg: Config, args: seq<string>, i: nat, n: nat, first: bool, item: Item, r: Parsed)
    requires item.Cluster? && StandsAt(args, i, n, item) && Fits(cfg, first, item, n < |args|)
    requires ParseIs(cfg, args, n, false, r)
    ensures ParseIs(cfg, args, i, first, Consumed(Reports(cfg, first, item, n < |args|), item.Words(), r))
  {
    assert Unfold(0);
    var flags, end := item.flags, item.end;
    var text := flags + end.Text();
    var word := "-" + text;
    assert args[i] == args[i..n][0] == word && word[1..] == text && word[1] == text[0];
    var events := ClusterReads(cfg, args, i, first, flags, end, n, text, r);
    assert word != "--" && !IsOperand(word) && !IsLong(cfg, word);
  }

  lemma AtLong(cfg: Config, args: seq<string>, i: nat, n: nat, first: bool, item: Item, r: Parsed)
    requires item.Long? && StandsAt(args, i, n, item) && Fits(cfg, first, item, n < |args|)
    requires ParseIs(cfg, args, n, false, r)
    ensures ParseIs(cfg, args, i, first, Consumed(Reports(cfg, first, item, n < |args|), item.Words(), r))
  {
    var text := item.name + (if item.value.Equals? then "=" + item.value.value else "");
    LongWord(item, text);
    assert args[i] == args[i..n][0] && (item.value.Behind? ==> args[i + 1] == args[i..n][1]);
    var os, letters := cfg.longopts.value, Letters(cfg, first);
    LongReads(cfg, first, item, n < |args|, Argument(args, i + 1), text, args[i]);
    LongElement(cfg, args, i, n, first, args[i], text, LongReport(letters, os, args[i], item.value, item.found), r);
  }

  lemma LongElement(cfg: Config, args: seq<string>, i: nat, n: nat, first: bool, word: string, text: string, e': Event,
                    r: Parsed)
    requires cfg.longopts.Some? && i < n <= |args| && args[i] == word == "--" + text && text != ""
    requires ParseIs(cfg, args, n, false, r)
    requires var (e, takesNext) := LongEvent(cfg, Letters(cfg, first), text, Argument(args, i + 1));
             n == (if takesNext then i + 2 else i + 1) && e' == e.(last := Last(args[i..n]))
    ensures ParseIs(cfg, args, i, first, Consumed([e'], args[i..n], r))
  {
    assert Unfold(0);
    assert word[2..] == text && word[1] == '-' && word != "--" && !IsOperand(word);
    var (e, takesNext) := LongEvent(cfg, Letters(cfg, first), text, Argument(args, i + 1));
    OneConsumed(e, args[i..n], r);
  }

  lemma LongWord(item: Item, text: string)
    requires item.Long? && text == item.name + (if item.value.Equals? then "=" + item.value.value else "")
    ensures item.Words() == ["--" + text] + (if item.value.Behind? then [item.value.value] else [])
  {
    if !item.value.Equals? {
      assert text == item.name;
    }
  }

  lemma AtOperand(cfg: Config, args: seq<string>, i: nat, n: nat, first: bool, item: Item, r: Parsed)
    requires item.Operand? && StandsAt(args, i, n, item) && Fits(cfg, first, item, n < |args|)
    requires ParseIs(cfg, args, n, StillFirst(cfg, first, item), r)
    ensures ParseIs(cfg, args, i, first,
                    if InOrder(cfg) then Consumed(Reports(cfg, first, item, n < |args|), item.Words(), r)
                    else Parsed(r.events, r.options, [item.word] + r.operands))
  {
    assert Unfold(0);
    var word := item.word;
    assert args[i] == args[i..n][0] == word && IsOperand(word) && word != "--";
    if InOrder(cfg) {
      OneConsumed(Plain(1, Some(word)), args[i..n], r);
    }
  }

  lemma AtTail(cfg: Config, args: seq<string>, i: nat, first: bool, tail: Tail)
    requires i <= |args| && args[i..] == tail.Words() && LineFits(cfg, first, [], tail)
    ensures ParseIs(cfg, args, i, first, Scanned(cfg, first, [], tail))
  {
    if i < |args| {
      assert args[i] == tail.Words()[0];
      if tail.Dashes? {
        assert args[i + 1..] == tail.Words()[1..] == tail.words;
      }
    }
  }

  /** What a scan makes of a command line is what is written there, item by item. */
  lemma {:induction false} LineReads(cfg: Config, args: seq<string>, i: nat, first: bool, items: seq<Item>, tail: Tail)
    requires i <= |args| && args[i..] == Written(items, tail) && LineFits(cfg, first, items, tail)
    ensures ParseIs(cfg, args, i, first, Scanned(cfg, first, items, tail))
    decreases |items|
  {
    if items == [] {
      AtTail(cfg, args, i, first, tail);
    } else {
      var item, rest := items[0], Written(items[1..], tail);
      var n := i + |item.Words()|;
      CutWords(args, i, n, item.Words(), rest);
      var first' := StillFirst(cfg, first, item);
      var r := Scanned(cfg, first', items[1..], tail);
      LineReads(cfg, args, n, first', items[1..], tail);
      assert rest != [] <==> n < |args|;
      match item
      case Cluster(_, _) => AtCluster(cfg, args, i, n, first, item, r);
      case Long(_, _, _) => AtLong(cfg, args, i, n, first, item, r);
      case Operand(_) => AtOperand(cfg, args, i, n, first, item, r);
    }
  }

  lemma CutWords(args: seq<string>, i: nat, n: nat, words: seq<string>, rest: seq<string>)
    requires i <= |args| && args[i..] == words + rest && n == i + |words|
    ensures n <= |args| && args[i..n] == words && args[n..] == rest
  {
    assert args[i..n] == args[i..][..|words|] && args[n..] == args[i..][|words|..];
  }

  /** The whole scan of arguments that are written as this line. */
  lemma LineParses(cfg: Config, args: seq<string>, line: Line)
    requires |args| >= 1 && Writes(cfg, line, args[1..])
    ensures Parse(cfg, args, 1, true) == Scanned(cfg, true, line.items, line.tail)
  {
    LineReads(cfg, args, 1, true, line.items, line.tail);
    assert Unfold(0);
  }

  // ---- Every command line ----------------------------------------------------------------

  lemma {:induction false} LettersOfCluster(cfg: Config, first: bool, text: string, next: Option<string>)
    returns (flags: string, end: Ending)
    requires text != ""
    ensures text == flags + end.Text() && ClusterFits(cfg, first, flags, end, next.Some?)
    ensures end.Separate? ==> next == Some(end.value)
    decreases |text|
  {
    var letters, c, rest := Letters(cfg, first), text[0], text[1..];
    assert text == [c] + rest;
    if Undeclared(letters, c) || TakesNone(letters, c) {
      if rest == "" {
        flags, end := [c], Nothing;
        assert flags[1..] == "" && ClusterFits(cfg, false, "", Nothing, next.Some?);
        assert flags + end.Text() == text;
      } else {
        flags, end := LettersOfCluster(cfg, false, rest, next);
        TextBehind([c] + flags, c, flags, end, [c] + flags + end.Text());
        MoreFlags(cfg, first, c, flags, end, next.Some?);
        flags := [c] + flags;
      }
    } else {
      SomeArity(letters, c);
      flags := "";
      end := if rest != "" then Attached(c, rest) else if MayTakeOne(letters, c) then Without(c)
             else if next.Some? then Separate(c, next.value) else Missing(c);
      assert flags + end.Text() == text;
    }
  }

  lemma MoreFlags(cfg: Config, first: bool, c: char, flags: string, end: Ending, more: bool)
    requires ClusterFits(cfg, false, flags, end, more)
    requires Undeclared(Letters(cfg, first), c) || TakesNone(Letters(cfg, first), c)
    ensures ClusterFits(cfg, first, [c] + flags, end, more)
  {
    assert ([c] + flags)[1..] == flags;
  }

  lemma SomeArity(letters: string, c: char)
    requires !Undeclared(letters, c)
    ensures TakesNone(letters, c) || TakesOne(letters, c) || MayTakeOne(letters, c)
  {
    var p := IndexOf(letters, c);
    assert forall k :: 0 <= k < p ==> letters[..p][k] == letters[k];
    assert p < |letters| && DeclaredAt(letters, c, p);
  }

  /** Every command line is written as items and a tail. */
  lemma {:induction false} LineOf(cfg: Config, args: seq<string>, i: nat, first: bool)
    returns (items: seq<Item>, tail: Tail)
    requires i <= |args|
    ensures args[i..] == Written(items, tail) && LineFits(cfg, first, items, tail)
    decreases |args| - i
  {
    if i == |args| {
      items, tail := [], End;
    } else if args[i] == "--" {
      items, tail := [], Dashes(args[i + 1..]);
      assert args[i..] == ["--"] + args[i + 1..];
    } else if IsOperand(args[i]) && StopsEarly(cfg) {
      items, tail := [], Stop(args[i..]);
    } else {
      var item, n := ItemAt(cfg, args, i, first);
      items, tail := LineOf(cfg, args, n, StillFirst(cfg, first, item));
      items := ItemInFront(cfg, args, i, n, first, item, items, tail);
    }
  }

  lemma ItemInFront(cfg: Config, args: seq<string>, i: nat, n: nat, first: bool, item: Item, rest: seq<Item>,
                    tail: Tail) returns (items: seq<Item>)
    requires StandsAt(args, i, n, item) && Fits(cfg, first, item, n < |args|)
    requires args[n..] == Written(rest, tail) && LineFits(cfg, StillFirst(cfg, first, item), rest, tail)
    ensures args[i..] == Written(items, tail) && LineFits(cfg, first, items, tail)
  {
    Sliced(args, i, n);
    InFront(cfg, first, item, rest, tail, n < |args|);
    items := [item] + rest;
  }

  lemma Sliced(args: seq<string>, i: nat, n: nat)
    requires i <= n <= |args|
    ensures args[i..] == args[i..n] + args[n..] && (args[n..] != [] <==> n < |args|)
  {}

  lemma InFront(cfg: Config, first: bool, item: Item, rest: seq<Item>, tail: Tail, more: bool)
    requires more == (Written(rest, tail) != []) && Fits(cfg, first, item, more)
    requires LineFits(cfg, StillFirst(cfg, first, item), rest, tail)
    ensures Written([item] + rest, tail) == item.Words() + Written(rest, tail)
    ensures LineFits(cfg, first, [item] + rest, tail)
  {
    var items := [item] + rest;
    assert items[0] == item && items[1..] == rest;
  }

  lemma ItemAt(cfg: Config, args: seq<string>, i: nat, first: bool) returns (item: Item, n: nat)
    requires i < |args| && args[i] != "--" && (IsOperand(args[i]) ==> !StopsEarly(cfg))
    ensures StandsAt(args, i, n, item) && Fits(cfg, first, item, n < |args|)
  {
    var word, next := args[i], Argument(args, i + 1);
    if IsOperand(word) {
      item := Operand(word);
      n := WordsTaken(args, i, word, None);
    } else if IsLong(cfg, word) {
      item := LongAt(cfg, word, next);
      n := WordsTaken(args, i, word, if item.value.Behind? then next else None);
    } else {
      item := ClusterAt(cfg, first, word, next);
      n := WordsTaken(args, i, word, if item.end.Separate? then next else None);
      AnyMore(cfg, first, item.flags, item.end, next.Some?, n < |args|);
    }
  }

  /** The word and, if it is taken, the next one. */
  lemma WordsTaken(args: seq<string>, i: nat, word: string, taken: Option<string>) returns (n: nat)
    requires i < |args| && args[i] == word && (taken.Some? ==> taken == Argument(args, i + 1))
    ensures i < n <= |args| && args[i..n] == [word] + (if taken.Some? then [taken.value] else [])
    ensures taken.None? ==> n == i + 1
  {
    n := if taken.Some? then i + 2 else i + 1;
  }

  lemma ClusterAt(cfg: Config, first: bool, word: string, next: Option<string>) returns (item: Item)
    requires !IsOperand(word) && word != "--" && !IsLong(cfg, word)
    ensures item.Cluster? && Fits(cfg, first, item, next.Some?)
    ensures item.Words() == [word] + item.end.Next() && (item.end.Separate? ==> next == Some(item.end.value))
  {
    var text := word[1..];
    var flags, end := LettersOfCluster(cfg, first, text, next);
    assert word == "-" + text && text[0] == word[1];
    item := Cluster(flags, end);
  }

  lemma {:induction false} AnyMore(cfg: Config, first: bool, flags: string, end: Ending, more: bool, more': bool)
    requires ClusterFits(cfg, first, flags, end, more) && (end.Missing? ==> more == more')
    ensures ClusterFits(cfg, first, flags, end, more')
    decreases |flags|
  {
    if flags != "" {
      AnyMore(cfg, false, flags[1..], end, more, more');
    }
  }

  lemma LongAt(cfg: Config, word: string, next: Option<string>) returns (item: Item)
    requires !IsOperand(word) && word != "--" && IsLong(cfg, word)
    ensures item.Long? && LongFits(cfg, item.name, item.value, item.found, !item.value.Behind? && next.Some?)
    ensures item.Words() == [word] + (if item.value.Behind? then [item.value.value] else [])
    ensures item.value.Behind? ==> next == Some(item.value.value)
  {
    var text, os := word[2..], cfg.longopts.value;
    var n := NameEnd(text);
    var name := text[..n];
    var found := Meaning(os, name);
    assert word == "--" + text;
    var value := Bare;
    if n < |text| {
      value := Equals(text[n + 1..]);
      assert text == name + ("=" + value.value);
    } else if found.Known? && os[found.index].hasArg == 1 && next.Some? {
      value := Behind(next.value);
      assert text == name;
    } else {
      assert text == name;
    }
    item := Long(name, value, found);
  }
}
