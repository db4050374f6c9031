/** The names of commands, their order, and the tokens of a request (libxpa/command.c). */
module CommandNames {
  import opened Common
  import opened Tokenizer

  const SZ_LINE := 4096
  const XPA_NAMELEN := 1024

  // ---- The order of the list -------------------------------------------------------------

  /** strcmp(a, b) < 0. */
  predicate Less(a: string, b: string) {
    if b == "" then false else if a == "" then true else a[0] < b[0] || (a[0] == b[0] && Less(a[1..], b[1..]))
  }

  /** The test by which XPACmdAdd stops before an existing name c: the new name n is equal to c,
      extends it, or is smaller without being extended by it. */
  predicate StopsBefore(n: string, c: string) { c <= n || (!(n <= c) && Less(n, c)) }

  /** The lexicographic order in which the end of a name comes after every character, so that an
      extension precedes its prefix. */
  predicate Before(a: string, b: string) {
    if b == "" then true else if a == "" then false else a[0] < b[0] || (a[0] == b[0] && Before(a[1..], b[1..]))
  }

  lemma {:induction false} StopsBeforeIsBefore(n: string, c: string)
    ensures StopsBefore(n, c) == Before(n, c)
  {
    if n != "" && c != "" {
      StopsBeforeIsBefore(n[1..], c[1..]);
      assert n <= c <==> n[0] == c[0] && n[1..] <= c[1..];
      assert c <= n <==> n[0] == c[0] && c[1..] <= n[1..];
    }
  }

  lemma {:induction false} BeforeTotal(a: string, b: string)
    ensures Before(a, b) || Before(b, a)
    ensures Before(a, b) && Before(b, a) ==> a == b
  {
    if a != "" && b != "" {
      BeforeTotal(a[1..], b[1..]);
    }
  }

  lemma {:induction false} BeforeTransitive(a: string, b: string, c: string)
    requires Before(a, b) && Before(b, c)
    ensures Before(a, c)
  {
    if a != "" && b != "" && c != "" && a[0] == b[0] == c[0] {
      BeforeTransitive(a[1..], b[1..], c[1..]);
    }
  }

  lemma {:induction false} ExtensionFirst(a: string, b: string)
    requires b <= a
    ensures Before(a, b)
  {
    if b != "" {
      ExtensionFirst(a[1..], b[1..]);
    }
  }

  // ---- Names -----------------------------------------------------------------------------

  function Spaces(s: string): nat {
    if s == "" then 0 else (if s[0] == ' ' then 1 else 0) + Spaces(s[1..])
  }

  lemma {:induction false} SpacesConcat(a: string, b: string)
    ensures Spaces(a + b) == Spaces(a) + Spaces(b)
  {
    if a == "" {
      assert a + b == b;
    } else {
      SpacesConcat(a[1..], b);
      assert (a + b)[1..] == a[1..] + b;
    }
  }

  /** XPACmdParseNames from position i on: the words of lbuf, separated by single blanks, after
      what has been collected so far, and their number. */
  function ParseNames(lbuf: string, d: Table, i: nat, buf: string, n: nat): (string, nat)
    requires i <= |lbuf|
    decreases |lbuf| - i
  {
    match NextWord(lbuf, d, i)
    case NoWord(_) => (buf, n)
    case Found(token, ptr, _) => ParseNames(lbuf, d, ptr, NameWith(buf, token), n + 1)
  }

  /** A name with another token, after a blank if it is not the first. */
  function NameWith(buf: string, token: string): string { if buf != "" then buf + " " + token else buf + token }

  /** A name without quotes. */
  predicate Unquoted(s: string) { InTable(s) && forall k :: 0 <= k < |s| ==> !IsQuote(s[k]) }

  /** Something other than blanks is left. */
  ghost predicate WordLeft(s: string, i: nat) { exists k :: i <= k < |s| && !IsSpace(s[k]) }

  // The next three predicates only unfold where a proof mentions Unfold.

  /** The word at i, and what follows it. */
  ghost predicate HasWord(s: string, d: Table, i: nat, token: string, ptr: nat) {
    forall n {:trigger Unfold(n)} :: Unfold(n) ==>
      i <= |s| && var r := NextWord(s, d, i); r.Found? && r.token == token && r.ptr == ptr
  }

  /** The words from i on, after n that have made `buf`, make k words and the name. */
  ghost predicate Makes(s: string, d: Table, i: nat, buf: string, n: nat, name: string, k: nat) {
    forall u {:trigger Unfold(u)} :: Unfold(u) ==> i <= |s| && ParseNames(s, d, i, buf, n) == (name, k)
  }

  lemma MakesNext(s: string, d: Table, i: nat, buf: string, n: nat, token: string, ptr: nat, name: string, k: nat)
    requires HasWord(s, d, i, token, ptr) && Makes(s, d, i, buf, n, name, k)
    ensures Makes(s, d, ptr, NameWith(buf, token), n + 1, name, k)
  {
    assert Unfold(0);
  }

  lemma MakesBefore(s: string, d: Table, i: nat, buf: string, n: nat, token: string, ptr: nat, name: string, k: nat)
    requires HasWord(s, d, i, token, ptr) && Makes(s, d, ptr, NameWith(buf, token), n + 1, name, k)
    ensures Makes(s, d, i, buf, n, name, k)
  {
    assert Unfold(0);
  }

  ghost predicate HasNoWord(s: string, d: Table, i: nat) {
    forall n {:trigger Unfold(n)} :: Unfold(n) ==> i <= |s| && NextWord(s, d, i).NoWord?
  }

  lemma MakesLast(s: string, d: Table, i: nat, buf: string, n: nat, name: string, k: nat)
    requires HasNoWord(s, d, i) && Makes(s, d, i, buf, n, name, k)
    ensures name == buf && k == n
  {
    assert Unfold(0);
  }

  lemma UnquotedStep(s: string, i: nat) returns (token: string, ptr: nat)
    requires Unquoted(s) && i < |s|
    ensures HasWord(s, NO_DELIMITERS, i, token, ptr) && i < ptr <= |s|
    ensures Spaces(token) == 0 && (WordLeft(s, i) <==> token != "")
  {
    var d := NO_DELIMITERS;
    var b := SkipSeparators(s, d, i);
    var e := WordEnd(s, d, b);
    assert b < |s| ==> s[b..e] != "" && !IsSpace(s[b]);
    NoSpaces(s[b..e]);
    token, ptr := s[b..e], Past(s, e);
  }

  lemma {:induction false} NoSpaces(t: string)
    requires forall k :: 0 <= k < |t| ==> !IsSpace(t[k])
    ensures Spaces(t) == 0
  {
    if t != "" {
      NoSpaces(t[1..]);
    }
  }

  /** The number of tokens can be read off the name. */
  predicate Counted(name: string, n: nat) { if name == "" then n == 0 else n == Spaces(name) + 1 }

  lemma {:induction false} MakesCounted(s: string, i: nat, buf: string, n: nat) returns (name: string, k: nat)
    requires Unquoted(s) && i <= |s| && Counted(buf, n) && (buf != "" || WordLeft(s, i))
    ensures Makes(s, NO_DELIMITERS, i, buf, n, name, k) && name != "" && Counted(name, k)
    decreases |s| - i
  {
    if i == |s| {
      name, k := buf, n;
    } else {
      var token, ptr := UnquotedStep(s, i);
      OneMoreToken(buf, n, token);
      name, k := MakesCounted(s, ptr, NameWith(buf, token), n + 1);
      MakesBefore(s, NO_DELIMITERS, i, buf, n, token, ptr, name, k);
    }
  }

  /** In a name without quotes, and not of blanks alone, there is one token more than blanks: runs of blanks
      become single ones, but more than one blank at the end leaves an empty token there. */
  lemma ParseCounts(s: string, i: nat, buf: string, n: nat)
    requires Unquoted(s) && i <= |s| && Counted(buf, n) && (buf != "" || WordLeft(s, i))
    ensures var (name, k) := ParseNames(s, NO_DELIMITERS, i, buf, n); name != "" && Counted(name, k)
  {
    var name, k := MakesCounted(s, i, buf, n);
    assert Unfold(0);
  }

  lemma OneMoreToken(buf: string, n: nat, token: string)
    requires Counted(buf, n) && Spaces(token) == 0 && (buf != "" || token != "")
    ensures NameWith(buf, token) != "" && Counted(NameWith(buf, token), n + 1)
  {
    var next := NameWith(buf, token);
    if buf != "" {
      SpacesConcat(buf, " ");
      SpacesConcat(buf + " ", token);
    } else {
      assert next == token;
    }
  }

  /** Two blanks at the end are read as one and an empty token. */
  lemma TwoBlanksAtEnd(name: string, a: string)
    requires name == "a  " && a == "a"
    ensures ParseNames(name, NO_DELIMITERS, 0, "", 0) == (a + " ", 2)
  {
    var d := NO_DELIMITERS;
    assert SkipSeparators(name, d, 0) == 0 && WordEnd(name, d, 1) == 1 && WordEnd(name, d, 0) == 1;
    assert NextWord(name, d, 0) == Found(a, 2, ' ') by {
      assert name[0..1] == a;
    }
    assert SkipSeparators(name, d, 3) == 3 && SkipSeparators(name, d, 2) == 3;
    assert NextWord(name, d, 2) == Found("", 3, '\0');
    assert "" + a == a && a + " " + "" == a + " ";
    assert ParseNames(name, d, 3, a + " ", 2) == (a + " ", 2);
    assert ParseNames(name, d, 2, a, 1) == (a + " ", 2);
  }

  // ---- The first tokens of the input -----------------------------------------------------

  /** The loop variables of XPACmdLookup; `broke` when a token did not fit. */
  datatype Built = Built(name: string, tlen: nat, lp2: nat, broke: bool)

  /** One more token. */
  function Extend(input: string, d: Table, r: Built): (r': Built)
    requires r.lp2 <= |input|
    ensures r'.lp2 <= |input|
  {
    if r.broke then r
    else
      match NextWord(input, d, r.lp2)
      case NoWord(ptr) => r.(lp2 := ptr)
      case Found(token, ptr, _) =>
        if r.tlen + |token| + 1 <= SZ_LINE - 1 then
          Built(NameWith(r.name, token), r.tlen + |token| + 1, ptr, false)
        else Built("", r.tlen, ptr, true)
  }

  /** The name made of the first n tokens of the input. */
  function Build(input: string, d: Table, n: nat): (r: Built)
    ensures r.lp2 <= |input|
  {
    if n == 0 then Built("", 0, 0, false) else Extend(input, d, Build(input, d, n - 1))
  }

  /** The definition only unfolds where a proof mentions Unfold. */
  ghost predicate IsBuilt(input: string, d: Table, n: nat, r: Built) {
    forall u {:trigger Unfold(u)} :: Unfold(u) ==> r == Build(input, d, n)
  }

  /** One token fewer. */
  lemma BuildStep(input: string, d: Table, n: nat, r: Built) returns (r': Built)
    requires n > 0 && IsBuilt(input, d, n, r) && !r.broke
    ensures IsBuilt(input, d, n - 1, r') && !r'.broke && r'.name <= r.name
  {
    assert Unfold(0);
    r' := Build(input, d, n - 1);
    ExtendGrows(input, d, r');
  }

  lemma ExtendGrows(input: string, d: Table, r: Built)
    requires r.lp2 <= |input| && !Extend(input, d, r).broke
    ensures !r.broke && r.name <= Extend(input, d, r).name
  {}

  lemma {:induction false} BrokenHasNoName(input: string, d: Table, n: nat)
    ensures Build(input, d, n).broke ==> Build(input, d, n).name == ""
  {
    if n > 0 {
      BrokenHasNoName(input, d, n - 1);
    }
  }

  /** Taking more tokens only extends the name. */
  lemma {:induction false} BuildGrows(input: string, d: Table, m: nat, n: nat, a: Built, b: Built)
    requires m <= n && IsBuilt(input, d, m, a) && IsBuilt(input, d, n, b) && !b.broke
    ensures a.name <= b.name
    decreases n - m
  {
    if m < n {
      var c := BuildStep(input, d, n, b);
      BuildGrows(input, d, m, n - 1, a, c);
      PrefixTransitive(a.name, c.name, b.name);
    } else {
      SameBuilt(input, d, n, a, b);
    }
  }

  lemma SameBuilt(input: string, d: Table, n: nat, a: Built, b: Built)
    requires IsBuilt(input, d, n, a) && IsBuilt(input, d, n, b)
    ensures a == b
  {
    assert Unfold(0);
  }

  lemma PrefixTransitive(a: string, b: string, c: string)
    requires a <= b <= c
    ensures a <= c
  {}

  lemma {:induction false} BrokeForGood(input: string, d: Table, m: nat, n: nat)
    requires m <= n && (m < n ==> Build(input, d, m).broke)
    ensures Build(input, d, n) == Build(input, d, m)
    decreases n - m
  {
    if m < n {
      BrokeForGood(input, d, m, n - 1);
      BrokeStays(input, d, n - 1, n);
    }
  }

  lemma BrokeStays(input: string, d: Table, n: nat, next: nat)
    requires next == n + 1 && Build(input, d, n).broke
    ensures Build(input, d, next) == Build(input, d, n)
  {}

  lemma LongerName(input: string, d: Table, m: nat, n: nat, a: string, b: string)
    requires m <= n && a == Build(input, d, m).name && b == Build(input, d, n).name && b != ""
    ensures a <= b
  {
    BrokenHasNoName(input, d, n);
    BuildGrows(input, d, m, n, Build(input, d, m), Build(input, d, n));
  }

  lemma PrefixLast(a: string, b: string)
    requires a <= b && Before(a, b)
    ensures a == b
  {
    ExtensionFirst(b, a);
    BeforeTotal(a, b);
  }

  lemma {:induction false} LessTotal(a: string, b: string)
    ensures Less(a, b) || Less(b, a) || a == b
    ensures !(Less(a, b) && Less(b, a)) && (a == b ==> !Less(a, b))
  {
    if a != "" && b != "" {
      LessTotal(a[1..], b[1..]);
    }
  }
}
