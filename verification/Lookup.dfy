/** Looking up access points in the name server's registry (libxpa/xpans.c). */
module Lookup {
  import opened Common
  import opened Registry
  import ProxyInfo

  /** A lookup: templates for class and name or an exact method, the types, and the users. */
  datatype Query = Query(ctmpl: string, ntmpl: string, kind: string, users: string, byMethod: bool, meth: string)

  /** What the words of a lookup ask for, with * where a word is missing. */
  function QueryOf(args: seq<string>): Query
    requires 1 <= |args| <= 4
  {
    var proxy := args[0] != "" && args[0][0] == '@';
    match |args|
    case 1 => Query("*", args[0], "*", "*", proxy, args[0])
    case 2 => Query("*", args[0], args[1], "*", proxy, Truncated(args[0] + ":" + args[1]))
    case 3 => Query("*", args[0], args[1], args[2], proxy, args[0])
    case _ => Query(args[0], args[1], args[2], args[3], proxy, Truncated(args[0] + ":" + args[1]))
  }

  // ---- Words -----------------------------------------------------------------------------

  /** The length of the run of characters at the start of s that are, or are not, separators. */
  function RunLength(s: string, separator: char -> bool, within: bool): (n: nat)
    ensures n <= |s|
    ensures forall k :: 0 <= k < n ==> separator(s[k]) == within
    ensures n < |s| ==> separator(s[n]) != within
  {
    if s == "" || separator(s[0]) != within then 0 else 1 + RunLength(s[1..], separator, within)
  }

  /** The tokens of strtok, and with blanks the words that sscanf reads. */
  function Tokens(s: string, separator: char -> bool): seq<string>
    decreases |s|
  {
    var p := RunLength(s, separator, true);
    var n := RunLength(s[p..], separator, false);
    if n == 0 then [] else [s[p..][..n]] + Tokens(s[p..][n..], separator)
  }

  // ---- Which entries match ---------------------------------------------------------------

  /** strcasecmp. */
  predicate SameIgnoringCase(s: string, t: string) {
    |s| == |t| && forall k :: 0 <= k < |s| ==> SameLetter(s[k], t[k])
  }

  predicate IsSeparator(c: char) { c == ' ' || c == ':' || c == ';' || c == ',' }

  predicate UserListed(users: string, user: string) {
    exists k :: 0 <= k < |Tokens(users, IsSeparator)| && SameIgnoringCase(Tokens(users, IsSeparator)[k], user)
  }

  /** strpbrk: some character of the one is in the other. */
  predicate Shares(s: string, t: string) { exists k :: 0 <= k < |s| && s[k] in t }

  /** The entry passes all checks; tmatch is the template matcher. */
  predicate Wanted(tmatch: (string, string) -> bool, q: Query, e: Entry) {
    && (if q.byMethod then e.meth == q.meth else tmatch(e.xclass, q.ctmpl) && tmatch(e.name, q.ntmpl))
    && (q.kind == "*" || Shares(e.kind, q.kind))
    && (q.users == "*" || q.users == e.user || UserListed(q.users, e.user))
  }

  /** The line for an entry; a proxy's method is replaced by that of the name server. */
  function Line(nsmethod: string, q: Query, e: Entry): string {
    var meth := if q.byMethod || (e.meth != "" && e.meth[0] == '@') then nsmethod else e.meth;
    Truncated(e.xclass + " " + e.name + " " + e.kind + " " + meth + " " + e.user + " " + e.info + "\n")
  }

  /** Everything a lookup depends on besides the registry. */
  datatype Search = Search(tmatch: (string, string) -> bool, nsmethod: string, q: Query)

  function Lines(s: Search, entries: seq<Entry>): seq<string> {
    if entries == [] then []
    else
      var e := entries[|entries| - 1];
      Lines(s, entries[..|entries| - 1]) + (if Wanted(s.tmatch, s.q, e) then [Line(s.nsmethod, s.q, e)] else [])
  }

  function AllLines(s: Search, reqs: seq<Req>): seq<string> {
    if reqs == [] then [] else AllLines(s, reqs[..|reqs| - 1]) + Lines(s, reqs[|reqs| - 1].entries)
  }

  function Flatten(lines: seq<string>): string {
    if lines == [] then "" else Flatten(lines[..|lines| - 1]) + lines[|lines| - 1]
  }

  // ---- The reply -------------------------------------------------------------------------

  /** The growing arrays of LookupReq: the strings, and the offset of each in the reply. */
  class Reply {
    var strings: array<string>
    var lens: array<nat>
    var got: nat
    ghost var lines: seq<string>

    ghost predicate Valid()
      reads this, strings, lens
    {
      && got == |lines| < strings.Length == lens.Length
      && strings[..got] == lines
      && forall k :: 0 <= k <= got ==> lens[k] == |Flatten(lines[..k])|
    }

    constructor ()
      ensures Valid() && lines == [] && fresh(strings) && fresh(lens) && got + 2 <= strings.Length
    {
      var s := new string[1024](_ => "");
      var l := new nat[1024](_ => 0);
      strings, lens, got, lines := s, l, 0, [];
    }

    /** Doubling. */
    method Grow()
      requires Valid()
      modifies this
      ensures Valid() && lines == old(lines) && got == old(got)
      ensures fresh(strings) && fresh(lens) && strings.Length == 2 * old(strings.Length)
    {
      var slen := 2 * strings.Length;
      var s := new string[slen](k requires 0 <= k reads this, strings => if k < strings.Length then strings[k] else "");
      var l := new nat[slen](k requires 0 <= k reads this, lens => if k < lens.Length then lens[k] else 0);
      strings, lens := s, l;
    }

    /** Room for this line and the final one is always there. */
    method Push(line: string)
      requires Valid() && got + 1 < strings.Length
      modifies this`got, this`lines, strings, lens
      ensures Valid() && lines == old(lines) + [line]
    {
      strings[got] := line;
      lens[got + 1] := lens[got] + |line|;
      got := got + 1;
      ghost var before := lines;
      lines := lines + [line];
      forall k | 0 <= k <= got
        ensures lens[k] == |Flatten(lines[..k])|
      {
        if k == got {
          assert lines[..k] == lines && lines[..k - 1] == before == before[..k - 1];
        } else {
          assert lines[..k] == before[..k];
        }
      }
    }

    method Append(line: string)
      requires Valid() && got + 2 <= strings.Length
      modifies this, strings, lens
      ensures Valid() && lines == old(lines) + [line] && got + 2 <= strings.Length
      ensures strings == old(strings) || fresh(strings)
      ensures lens == old(lens) || fresh(lens)
    {
      if got + 2 >= strings.Length {
        Grow();
      }
      Push(line);
    }

    /** Copying the strings, each with its terminator, to their offsets in one buffer. */
    method Assemble() returns (tstring: array<char>, total: nat)
      requires Valid()
      ensures fresh(tstring) && tstring.Length == total + 1 && tstring[..total] == Flatten(lines)
    {
      total := lens[got];
      tstring := new char[total + 1](_ => '\0');
      assert lines[..got] == lines;
      for i := 0 to got
        invariant lens[i] <= total && tstring[..lens[i]] == Flatten(lines[..i])
      {
        FlattenGrows(lines, i);
        assert strings[i] == strings[..got][i] == lines[i];
        assert lens[i + 1] == lens[i] + |strings[i]|;
        StrCpy(tstring, lens[i], strings[i]);
      }
    }
  }

  method StrCpy(a: array<char>, at: nat, s: string)
    requires at + |s| < a.Length
    modifies a
    ensures a[..at + |s|] == old(a[..at]) + s
  {
    ghost var before := a[..at];
    for k := 0 to |s|
      invariant a[..at + k] == before + s[..k]
    {
      a[at + k] := s[k];
    }
    a[at + |s|] := '\0';
    assert s[..|s|] == s;
  }

  lemma {:induction false} FlattenGrows(lines: seq<string>, i: nat)
    requires i < |lines|
    ensures Flatten(lines[..i + 1]) == Flatten(lines[..i]) + lines[i]
    ensures |Flatten(lines[..i + 1])| <= |Flatten(lines)|
    decreases |lines|
  {
    assert lines[..i + 1][..i] == lines[..i];
    if i + 1 == |lines| {
      assert lines[..i + 1] == lines;
    } else {
      var most := lines[..|lines| - 1];
      FlattenGrows(most, i);
      assert most[..i + 1] == lines[..i + 1];
    }
  }

  /** LookupReq, for a request with a word: the colon of the first word is turned into a blank. */
  method LookupReq(server: NameServer, tmatch: (string, string) -> bool, nsmethod: string,
                   lbuf: array<char>, n: nat, flag: bool)
    returns (tstring: array<char>, total: nat, got: nat)
    requires n < lbuf.Length && lbuf[n] == '\0' && CString(lbuf[..n]) && Asked(lbuf[..n]) != []
    modifies lbuf
    ensures fresh(tstring) && tstring.Length == total + 1 && server.reqs == old(server.reqs)
    ensures var s := Search(tmatch, nsmethod, QueryOf(Asked(old(lbuf[..n]))));
            var lines := AllLines(s, server.reqs) + (if flag then [OK] else []);
            got == |lines| && tstring[..total] == Flatten(lines)
  {
    SplitArg(lbuf, n, 0);
    var words := Tokens(lbuf[..n], IsSpace);
    tstring, total, got := AnswerLookup(server, tmatch, nsmethod, if |words| <= 4 then words else words[..4], flag);
  }

  /** The search, for the words of the request: the reply is the lines of exactly the entries that match,
      in the order of the connections and of their entries, and a final line if it is asked for. */
  method AnswerLookup(server: NameServer, tmatch: (string, string) -> bool, nsmethod: string, args: seq<string>,
                      flag: bool)
    returns (tstring: array<char>, total: nat, got: nat)
    requires 1 <= |args| <= 4
    ensures fresh(tstring) && tstring.Length == total + 1
    ensures var lines := AllLines(Search(tmatch, nsmethod, QueryOf(args)), server.reqs) + (if flag then [OK] else []);
            got == |lines| && tstring[..total] == Flatten(lines)
  {
    var s := Search(tmatch, nsmethod, QueryOf(args));
    var reqs := server.reqs;
    var reply := new Reply();
    for i := 0 to |reqs|
      invariant fresh(reply) && fresh(reply.strings) && fresh(reply.lens)
      invariant reply.Valid() && reply.got + 2 <= reply.strings.Length && reply.lines == AllLines(s, reqs[..i])
    {
      AppendLines(reply, s, reqs[i].entries);
      assert reqs[..i + 1][..i] == reqs[..i];
    }
    assert reqs[..|reqs|] == reqs && AllLines(s, reqs) + [] == AllLines(s, reqs);
    if flag {
      reply.Push(OK);
    }
    tstring, total := reply.Assemble();
    got := reply.got;
  }

  /** Its inner loop: the lines of the matching entries of one connection. */
  method AppendLines(reply: Reply, s: Search, entries: seq<Entry>)
    requires reply.Valid() && reply.got + 2 <= reply.strings.Length
    modifies reply, reply.strings, reply.lens
    ensures reply.Valid() && reply.got + 2 <= reply.strings.Length
    ensures reply.lines == old(reply.lines) + Lines(s, entries)
    ensures reply.strings == old(reply.strings) || fresh(reply.strings)
    ensures reply.lens == old(reply.lens) || fresh(reply.lens)
  {
    ghost var before := reply.lines;
    NoneYet(before, s, entries);
    for k := 0 to |entries|
      invariant reply.Valid() && reply.got + 2 <= reply.strings.Length
      invariant SoFar(reply.lines, before, s, entries, k)
      invariant reply.strings == old(reply.strings) || fresh(reply.strings)
      invariant reply.lens == old(reply.lens) || fresh(reply.lens)
    {
      OneFurther(reply.lines, before, s, entries, k, k + 1);
      AppendEntry(reply, s, entries[k]);
    }
    AllAppended(reply.lines, before, s, entries);
  }

  /** The lines of the first k entries have been appended.  The definition only unfolds where a proof mentions
      Unfold. */
  ghost predicate SoFar(lines: seq<string>, before: seq<string>, s: Search, entries: seq<Entry>, k: nat) {
    forall n {:trigger Unfold(n)} :: Unfold(n) ==> k <= |entries| && lines == before + Lines(s, entries[..k])
  }

  lemma NoneYet(before: seq<string>, s: Search, entries: seq<Entry>)
    ensures SoFar(before, before, s, entries, 0)
  {
    assert before + Lines(s, entries[..0]) == before;
  }

  lemma OneFurther(lines: seq<string>, before: seq<string>, s: Search, entries: seq<Entry>, k: nat, next: nat)
    requires SoFar(lines, before, s, entries, k) && k < |entries| && next == k + 1
    ensures var lines' := if Wanted(s.tmatch, s.q, entries[k]) then lines + [Line(s.nsmethod, s.q, entries[k])]
                          else lines;
            SoFar(lines', before, s, entries, next)
  {
    assert Unfold(0);
    LinesGrow(s, entries, k, before);
  }

  lemma AllAppended(lines: seq<string>, before: seq<string>, s: Search, entries: seq<Entry>)
    requires SoFar(lines, before, s, entries, |entries|)
    ensures lines == before + Lines(s, entries)
  {
    assert Unfold(0);
    assert entries[..|entries|] == entries;
  }

  method AppendEntry(reply: Reply, s: Search, e: Entry)
    requires reply.Valid() && reply.got + 2 <= reply.strings.Length
    modifies reply, reply.strings, reply.lens
    ensures reply.Valid() && reply.got + 2 <= reply.strings.Length
    ensures reply.lines
         == if Wanted(s.tmatch, s.q, e) then old(reply.lines) + [Line(s.nsmethod, s.q, e)] else old(reply.lines)
    ensures reply.strings == old(reply.strings) || fresh(reply.strings)
    ensures reply.lens == old(reply.lens) || fresh(reply.lens)
  {
    if Wanted(s.tmatch, s.q, e) {
      reply.Append(Line(s.nsmethod, s.q, e));
    }
  }

  lemma LinesGrow(s: Search, entries: seq<Entry>, k: nat, before: seq<string>)
    requires k < |entries|
    ensures var now := before + Lines(s, entries[..k]);
            before + Lines(s, entries[..k + 1])
            == if Wanted(s.tmatch, s.q, entries[k]) then now + [Line(s.nsmethod, s.q, entries[k])] else now
  {
    assert entries[..k + 1][..k] == entries[..k];
  }

  // ---- What a reply tells ----------------------------------------------------------------

  /** The line shows a matching entry among these. */
  ghost predicate Shows(s: Search, entries: seq<Entry>, line: string) {
    exists e :: e in entries && Wanted(s.tmatch, s.q, e) && line == Line(s.nsmethod, s.q, e)
  }

  lemma {:induction false} LinesTell(s: Search, entries: seq<Entry>, line: string)
    ensures line in Lines(s, entries) <==> Shows(s, entries, line)
  {
    if entries != [] {
      var most, last := entries[..|entries| - 1], entries[|entries| - 1];
      LinesTell(s, most, line);
      assert forall e :: e in entries <==> e in most || e == last;
    }
  }

  /** A line is in the reply exactly if it shows a matching entry of some connection. */
  lemma {:induction false} ReplyTells(s: Search, reqs: seq<Req>, line: string)
    ensures line in AllLines(s, reqs) <==> exists i :: 0 <= i < |reqs| && Shows(s, reqs[i].entries, line)
  {
    if reqs != [] {
      ReplyTells(s, reqs[..|reqs| - 1], line);
      LinesTell(s, reqs[|reqs| - 1].entries, line);
    }
  }

  lemma {:induction false} EntriesInOrder(s: Search, a: seq<Entry>, b: seq<Entry>)
    ensures Lines(s, a + b) == Lines(s, a) + Lines(s, b)
    decreases |b|
  {
    if b == [] {
      assert a + b == a && Lines(s, a) + [] == Lines(s, a);
    } else {
      var most, e := b[..|b| - 1], b[|b| - 1];
      assert (a + b)[..|a + b| - 1] == a + most;
      EntriesInOrder(s, a, most);
      Associative(Lines(s, a), Lines(s, most), if Wanted(s.tmatch, s.q, e) then [Line(s.nsmethod, s.q, e)] else []);
    }
  }

  /** The lines of earlier connections come first, and in a connection those of earlier entries; the reply is
      their concatenation. */
  lemma LinesInOrder(s: Search, r: Req, a: seq<Entry>, b: seq<Entry>, before: seq<Req>)
    requires r.entries == a + b
    ensures AllLines(s, before + [r]) == AllLines(s, before) + (Lines(s, a) + Lines(s, b))
    ensures Flatten(AllLines(s, before) + Lines(s, r.entries))
         == Flatten(AllLines(s, before)) + Flatten(Lines(s, r.entries))
  {
    EntriesInOrder(s, a, b);
    assert (before + [r])[..|before|] == before;
    FlattenBoth(AllLines(s, before), Lines(s, r.entries));
  }

  lemma {:induction false} FlattenBoth(a: seq<string>, b: seq<string>)
    ensures Flatten(a + b) == Flatten(a) + Flatten(b)
    decreases |b|
  {
    if b == [] {
      assert a + b == a && Flatten(a) + "" == Flatten(a);
    } else {
      assert (a + b)[..|a + b| - 1] == a + b[..|b| - 1];
      FlattenBoth(a, b[..|b| - 1]);
      Associative(Flatten(a), Flatten(b[..|b| - 1]), b[|b| - 1]);
    }
  }

  // ---- Asking for an address -------------------------------------------------------------

  /** Where the words from position arg on start: before any blanks, if the text starts with them. */
  function ArgAt(text: string, arg: nat): (p: nat)
    ensures p <= |text|
  {
    if arg == 0 then 0 else AfterWord(text, ArgAt(text, arg - 1))
  }

  /** Where the word at p and the blanks after it end. */
  function AfterWord(text: string, p: nat): (q: nat)
    requires p <= |text|
    ensures q <= |text|
  {
    var end := p + RunLength(text[p..], IsSpace, false);
    end + RunLength(text[end..], IsSpace, true)
  }

  /** The first colon of the word that starts at p, or |text|. */
  function WordColon(text: string, p: nat): (k: nat)
    requires p <= |text|
    ensures p <= k <= |text|
    decreases |text| - p
  {
    if p == |text| || IsSpace(text[p]) then |text| else if text[p] == ':' then p else WordColon(text, p + 1)
  }

  /** The text with that colon turned into a blank. */
  function SplitText(text: string, arg: nat): string {
    var k := WordColon(text, ArgAt(text, arg));
    if k < |text| then text[k := ' '] else text
  }

  /** Its loops over the rest of a word, or over blanks. */
  method SkipRun(buf: array<char>, n: nat, start: nat, blanks: bool) returns (s: nat)
    requires start <= n < buf.Length && buf[n] == '\0' && CString(buf[..n])
    ensures s == start + RunLength(buf[..n][start..], IsSpace, blanks)
  {
    s := start;
    while buf[s] != '\0' && IsSpace(buf[s]) == blanks
      invariant start <= s <= n
      invariant s + RunLength(buf[..n][s..], IsSpace, blanks) == start + RunLength(buf[..n][start..], IsSpace, blanks)
      decreases n - s
    {
      assert buf[..n][s..][1..] == buf[..n][s + 1..];
      s := s + 1;
    }
  }

  /** Its first loop: skip to the word from position arg on. */
  method FindArg(buf: array<char>, n: nat, arg: nat) returns (s: nat)
    requires n < buf.Length && buf[n] == '\0' && CString(buf[..n])
    ensures s == ArgAt(buf[..n], arg)
  {
    ghost var text := buf[..n];
    s := 0;
    for i := 0 to arg
      invariant s <= n && StartsArg(text, i, s)
    {
      ArgStep(text, i, i + 1, s);
      s := SkipRun(buf, n, s, false);
      s := SkipRun(buf, n, s, true);
    }
    assert Unfold(0);
  }

  /** The words from position arg on start at s.  The definition only unfolds where a proof mentions
      Unfold. */
  ghost predicate StartsArg(text: string, arg: nat, s: nat) {
    forall n {:trigger Unfold(n)} :: Unfold(n) ==> s == ArgAt(text, arg)
  }

  lemma ArgStep(text: string, arg: nat, next: nat, s: nat)
    requires StartsArg(text, arg, s) && next == arg + 1 && s <= |text|
    ensures StartsArg(text, next, AfterWord(text, s))
  {
    assert Unfold(0);
    ArgNext(text, arg, next);
  }

  lemma ArgNext(text: string, arg: nat, next: nat)
    requires next == arg + 1
    ensures ArgAt(text, next) == AfterWord(text, ArgAt(text, arg))
  {}

  /** SplitArg, for the C string in the first n characters of the buffer. */
  method SplitArg(buf: array<char>, n: nat, arg: nat)
    requires n < buf.Length && buf[n] == '\0' && CString(buf[..n])
    modifies buf
    ensures buf[..n] == SplitText(old(buf[..n]), arg) && buf[n..] == old(buf[n..])
  {
    var s := FindArg(buf, n, arg);
    PutBlank(buf, n, s);
  }

  /** Its last loop: a blank for the first colon of the word that starts here. */
  method PutBlank(buf: array<char>, n: nat, start: nat)
    requires start <= n < buf.Length && buf[n] == '\0' && CString(buf[..n])
    modifies buf
    ensures var text, k := old(buf[..n]), WordColon(old(buf[..n]), start);
            buf[..n] == (if k < n then text[k := ' '] else text) && buf[n..] == old(buf[n..])
  {
    ghost var text := buf[..n];
    var s := start;
    while buf[s] != '\0' && !IsSpace(buf[s])
      invariant start <= s <= n && buf[..] == old(buf[..]) && WordColon(text, s) == WordColon(text, start)
      decreases n - s
    {
      assert buf[s] == text[s];
      if buf[s] == ':' {
        buf[s] := ' ';
        return;
      }
      s := s + 1;
    }
    assert s < n ==> buf[s] == text[s];
  }

  /** What a lookup asks for; sscanf reads four words at most. */
  function Asked(text: string): (args: seq<string>)
    ensures |args| <= 4
  {
    var words := Tokens(SplitText(text, 0), IsSpace);
    if |words| <= 4 then words else words[..4]
  }

  predicate IsWord(w: string) { w != "" && forall k :: 0 <= k < |w| ==> !IsSpace(w[k]) }

  /** The words, each after a blank. */
  function Spaced(ws: seq<string>): string {
    if ws == [] then "" else " " + (ws[0] + Spaced(ws[1..]))
  }

  lemma {:induction false} RunAll(w: string, rest: string, separator: char -> bool)
    requires forall k :: 0 <= k < |w| ==> !separator(w[k])
    requires rest != "" ==> separator(rest[0])
    ensures RunLength(w + rest, separator, false) == |w|
  {
    if w == "" {
      assert w + rest == rest;
    } else {
      assert (w + rest)[1..] == w[1..] + rest;
      RunAll(w[1..], rest, separator);
    }
  }

  /** Words separated by single blanks are read back. */
  lemma {:induction false} TokensOfSpaced(ws: seq<string>)
    requires forall k :: 0 <= k < |ws| ==> IsWord(ws[k])
    ensures Tokens(Spaced(ws), IsSpace) == ws
  {
    if ws != [] {
      TokensOfSpaced(ws[1..]);
      SpacedStarts(ws[1..]);
      FirstToken(ws[0], Spaced(ws[1..]));
    }
  }

  lemma SpacedStarts(ws: seq<string>)
    ensures Spaced(ws) != "" ==> Spaced(ws)[0] == ' '
  {}

  lemma FirstToken(w: string, rest: string)
    requires IsWord(w) && (rest != "" ==> IsSpace(rest[0]))
    ensures Tokens(" " + (w + rest), IsSpace) == [w] + Tokens(rest, IsSpace)
  {
    var s := w + rest;
    assert (" " + s)[1..] == s;
    assert RunLength(s, IsSpace, true) == 0;
    RunAll(w, rest, IsSpace);
    assert s[..|w|] == w && s[|w|..] == rest;
  }

  lemma LeadingBlank(s: string)
    requires s != "" && !IsSpace(s[0])
    ensures Tokens(" " + s, IsSpace) == Tokens(s, IsSpace)
  {
    assert (" " + s)[1..] == s && s[0..] == s;
    assert RunLength(s, IsSpace, true) == 0;
  }

  lemma {:induction false} ColonAfter(host: string, rest: string, text: string, p: nat)
    requires text == host + (":" + rest) && p <= |host|
    requires forall k :: 0 <= k < |host| ==> !IsSpace(host[k]) && host[k] != ':'
    ensures WordColon(text, p) == |host|
    decreases |host| - p
  {
    if p < |host| {
      ColonAfter(host, rest, text, p + 1);
    }
  }

  lemma ColonToBlank(host: string, rest: string)
    requires IsWord(host) && ':' !in host
    ensures SplitText(host + (":" + rest), 0) == host + (" " + rest)
  {
    var text := host + (":" + rest);
    ColonAfter(host, rest, text, 0);
    assert text[|host| := ' '] == host + (" " + rest);
  }

  /** In a request to add, the colon that is split is that of the second word: class and name become two words, and
      the address keeps its colon. */
  lemma SecondSplit(addr: string, cls: string, rest: string)
    requires IsWord(addr) && IsWord(cls) && ':' !in cls
    ensures SplitText(addr + (" " + (cls + (":" + rest))), 1) == addr + (" " + (cls + (" " + rest)))
  {
    var tail := cls + (":" + rest);
    var text := addr + (" " + tail);
    SecondWord(addr, tail, text);
    InFront(addr, tail, text);
    ColonBehind(addr + " ", cls, rest, text, |addr| + 1);
    BlankThere(addr, cls, rest, text);
  }

  lemma SecondWord(addr: string, tail: string, text: string)
    requires IsWord(addr) && text == addr + (" " + tail) && tail != "" && !IsSpace(tail[0])
    ensures ArgAt(text, 1) == |addr| + 1
  {
    RunAll(addr, " " + tail, IsSpace);
    assert text[0..] == text && text[|addr|..] == " " + tail && (" " + tail)[1..] == tail;
    assert RunLength(tail, IsSpace, true) == 0;
    ArgNext(text, 0, 1);
  }

  lemma InFront(addr: string, tail: string, text: string)
    requires text == addr + (" " + tail)
    ensures text == (addr + " ") + tail
  {}

  lemma BlankThere(addr: string, cls: string, rest: string, text: string)
    requires text == addr + (" " + (cls + (":" + rest)))
    ensures text[|addr| + 1 + |cls| := ' '] == addr + (" " + (cls + (" " + rest)))
  {}

  lemma {:induction false} ColonBehind(pre: string, host: string, rest: string, text: string, p: nat)
    requires text == pre + (host + (":" + rest)) && |pre| <= p <= |pre| + |host|
    requires forall k :: 0 <= k < |host| ==> !IsSpace(host[k]) && host[k] != ':'
    ensures WordColon(text, p) == |pre| + |host|
    decreases |pre| + |host| - p
  {
    if p < |pre| + |host| {
      assert text[p] == host[p - |pre|];
      ColonBehind(pre, host, rest, text, p + 1);
    }
  }

  /** The text of a request: an address, and further words after single blanks. */
  function Words(host: string, port: string, ws: seq<string>): string {
    host + (":" + (port + Spaced(ws)))
  }

  lemma TokensAfter(w: string, rest: string, ws: seq<string>)
    requires IsWord(w) && Tokens(" " + rest, IsSpace) == ws
    ensures Tokens(w + (" " + rest), IsSpace) == [w] + ws
  {
    FirstToken(w, " " + rest);
    LeadingBlank(w + (" " + rest));
  }

  lemma TokensAsked(text: string, split: string, ws: seq<string>)
    requires SplitText(text, 0) == split && Tokens(split, IsSpace) == ws && |ws| <= 4
    ensures Asked(text) == ws
  {}

  /** The address host:port with further words is read as one word more than it has. */
  lemma AddressSplit(host: string, port: string, ws: seq<string>)
    requires IsWord(host) && ':' !in host && IsWord(port) && |ws| <= 2 && forall k :: 0 <= k < |ws| ==> IsWord(ws[k])
    ensures Asked(Words(host, port, ws)) == [host] + ([port] + ws)
  {
    var rest := port + Spaced(ws);
    TokensOfSpaced(ws);
    FirstToken(port, Spaced(ws));
    TokensAfter(host, rest, [port] + ws);
    ColonToBlank(host, rest);
    TokensAsked(host + (":" + rest), host + (" " + rest), [host] + ([port] + ws));
  }

  /** The characters from p to q are one of the words of the text. */
  predicate WordOf(s: string, separator: char -> bool, p: int, q: int) {
    && 0 <= p < q <= |s| && (forall k :: p <= k < q ==> !separator(s[k]))
    && (p > 0 ==> separator(s[p - 1])) && (q < |s| ==> separator(s[q]))
  }

  /** The users from p to q are this one, in any case. */
  predicate Lists(users: string, user: string, p: int, q: int) {
    && WordOf(users, c => c in " :;,", p, q) && q - p == |user|
    && forall k :: 0 <= k < |user| ==> SameLetter(users[p + k], user[k])
  }

  /** The definition only unfolds where a proof mentions Unfold. */
  ghost predicate TokensAre(s: string, separator: char -> bool, tokens: seq<string>) {
    forall n {:trigger Unfold(n)} :: Unfold(n) ==> tokens == Tokens(s, separator)
  }

  /** The first token, from b to m, and the text and the tokens behind it. */
  lemma FirstOfTokens(s: string, separator: char -> bool, tokens: seq<string>)
    returns (b: nat, m: nat, rest: string, others: seq<string>)
    requires TokensAre(s, separator, tokens)
    ensures b <= m <= |s| && rest == s[m..] && forall k :: 0 <= k < b ==> separator(s[k])
    ensures if b == m then b == |s| && tokens == []
            else WordOf(s, separator, b, m) && tokens == [s[b..m]] + others && TokensAre(rest, separator, others)
  {
    assert Unfold(0);
    b := RunLength(s, separator, true);
    var u := s[b..];
    var n := RunLength(u, separator, false);
    m := b + n;
    assert forall k :: 0 <= k < |u| ==> u[k] == s[b + k];
    assert u[..n] == s[b..m] && u[n..] == s[m..];
    rest := s[m..];
    others := Tokens(rest, separator);
  }

  /** Words behind position m, which is the end or a separator. */
  lemma WordBehind(s: string, separator: char -> bool, m: nat, p: nat, q: nat)
    requires m <= |s| && (m < |s| ==> separator(s[m]))
    ensures WordOf(s[m..], separator, p, q) <==> WordOf(s, separator, m + p, m + q) && p < |s| - m && q <= |s| - m
    ensures p <= q <= |s| - m ==> s[m..][p..q] == s[m + p..m + q]
  {
    var u := s[m..];
    assert forall k :: 0 <= k < |u| ==> u[k] == s[m + k];
    if WordOf(s, separator, m + p, m + q) && q <= |u| {
      assert forall k :: p <= k < q ==> u[k] == s[m + k];
    }
    if WordOf(u, separator, p, q) {
      assert forall k :: m + p <= k < m + q ==> s[k] == u[k - m];
    }
  }

  /** The tokens are the words of the text. */
  lemma {:induction false} TokenIsWord(s: string, separator: char -> bool, tokens: seq<string>, k: nat)
    returns (p: nat, q: nat)
    requires TokensAre(s, separator, tokens) && k < |tokens|
    ensures WordOf(s, separator, p, q) && tokens[k] == s[p..q]
    decreases |s|
  {
    var b, m, rest, others := FirstOfTokens(s, separator, tokens);
    if k == 0 {
      p, q := b, m;
    } else {
      p, q := TokenIsWord(rest, separator, others, k - 1);
      WordBehind(s, separator, m, p, q);
      p, q := m + p, m + q;
    }
  }

  lemma {:induction false} WordIsToken(s: string, separator: char -> bool, tokens: seq<string>, p: nat, q: nat)
    returns (k: nat)
    requires TokensAre(s, separator, tokens) && WordOf(s, separator, p, q)
    ensures k < |tokens| && tokens[k] == s[p..q]
    decreases |s|
  {
    var b, m, rest, others := FirstOfTokens(s, separator, tokens);
    SameWord(s, separator, b, m, p, q);
    if p == b {
      k := 0;
    } else {
      WordBehind(s, separator, m, p - m, q - m);
      k := WordIsToken(rest, separator, others, p - m, q - m);
      k := k + 1;
    }
  }

  lemma SameWord(s: string, separator: char -> bool, b: nat, m: nat, p: nat, q: nat)
    requires WordOf(s, separator, p, q) && b <= m <= |s| && forall k :: 0 <= k < b ==> separator(s[k])
    requires if b == m then b == |s| else WordOf(s, separator, b, m)
    ensures b < m && (if p == b then q == m else p > m)
  {
    var first := s[p];
  }

  lemma ListedIs(users: string, user: string)
    ensures UserListed(users, user) <==> exists p, q :: Lists(users, user, p, q)
  {
    var tokens := Tokens(users, IsSeparator);
    if UserListed(users, user) {
      var k :| 0 <= k < |tokens| && SameIgnoringCase(tokens[k], user);
      var p, q := TokenIsWord(users, IsSeparator, tokens, k);
      SameAsUser(users, user, p, q, tokens[k]);
    }
    if p, q :| Lists(users, user, p, q) {
      var k := WordIsToken(users, IsSeparator, tokens, p, q);
      SameAsUser(users, user, p, q, tokens[k]);
    }
  }

  lemma SameAsUser(users: string, user: string, p: nat, q: nat, token: string)
    requires WordOf(users, IsSeparator, p, q) && token == users[p..q]
    ensures Lists(users, user, p, q) <==> SameIgnoringCase(token, user)
  {
    assert forall j :: 0 <= j < |token| ==> users[p + j] == token[j];
  }

  /** What a caller means by a type or a user that is given or left out. */
  predicate KindMeant(ws: seq<string>, e: Entry) {
    |ws| < 1 || ws[0] == "*" || exists k :: 0 <= k < |e.kind| && e.kind[k] in ws[0]
  }

  ghost predicate UserMeant(ws: seq<string>, e: Entry) {
    |ws| < 2 || ws[1] == "*" || ws[1] == e.user || exists p, q :: Lists(ws[1], e.user, p, q)
  }

  /** A lookup with this text finds the entry. */
  predicate Finds(tmatch: (string, string) -> bool, text: string, e: Entry) {
    var args := Asked(text); args != [] && Wanted(tmatch, QueryOf(args), e)
  }

  /** A lookup of class:name with a type and users finds exactly the entries whose class and name match, whose
      type has one of the characters given, and whose user is listed. */
  lemma ClassFound(tmatch: (string, string) -> bool, cls: string, name: string, ws: seq<string>, e: Entry)
    requires IsWord(cls) && cls[0] != '@' && ':' !in cls && IsWord(name)
    requires |ws| == 2 && IsWord(ws[0]) && IsWord(ws[1])
    ensures Finds(tmatch, Words(cls, name, ws), e)
      <==> tmatch(e.xclass, cls) && tmatch(e.name, name) && KindMeant(ws, e) && UserMeant(ws, e)
  {
    AddressSplit(cls, name, ws);
    ListedIs(ws[1], e.user);
    var args := [cls] + ([name] + ws);
    assert args[0] == cls && args[1] == name && args[2] == ws[0] && args[3] == ws[1];
  }

  /** Without users, the class is taken for the name and the name for the type. */
  lemma ClassAlone(tmatch: (string, string) -> bool, cls: string, name: string, ws: seq<string>, e: Entry)
    requires IsWord(cls) && cls[0] != '@' && ':' !in cls && IsWord(name) && |ws| <= 1 && (|ws| == 1 ==> IsWord(ws[0]))
    ensures Finds(tmatch, Words(cls, name, ws), e)
      <==> && tmatch(e.xclass, "*") && tmatch(e.name, cls) && KindMeant([name], e)
           && UserMeant([name] + ws, e)
  {
    AddressSplit(cls, name, ws);
    var args := [cls] + ([name] + ws);
    assert args[0] == cls && args[1] == name && (|ws| == 1 ==> args[2] == ws[0]);
    if |ws| == 1 {
      assert ([name] + ws)[1] == ws[0];
      ListedIs(ws[0], e.user);
    }
  }

  lemma NoColon(text: string, p: nat)
    requires p <= |text| && ':' !in text
    ensures WordColon(text, p) == |text|
    decreases |text| - p
  {}

  /** A lookup of a name alone, or with a type, or with a type and users, is for any class. */
  lemma NameFound(tmatch: (string, string) -> bool, name: string, ws: seq<string>, e: Entry)
    requires IsWord(name) && name[0] != '@' && ':' !in name + Spaced(ws)
    requires |ws| <= 2 && forall k :: 0 <= k < |ws| ==> IsWord(ws[k])
    ensures Finds(tmatch, name + Spaced(ws), e)
      <==> tmatch(e.xclass, "*") && tmatch(e.name, name) && KindMeant(ws, e) && UserMeant(ws, e)
  {
    var text := name + Spaced(ws);
    NoColon(text, 0);
    TokensOfSpaced(ws);
    FirstToken(name, Spaced(ws));
    LeadingBlank(text);
    TokensAsked(text, text, [name] + ws);
    NameQuery(tmatch, name, ws, [name] + ws, e);
  }

  lemma NameQuery(tmatch: (string, string) -> bool, name: string, ws: seq<string>, args: seq<string>, e: Entry)
    requires name != "" && name[0] != '@' && |ws| <= 2 && args == [name] + ws
    ensures Wanted(tmatch, QueryOf(args), e)
      <==> tmatch(e.xclass, "*") && tmatch(e.name, name) && KindMeant(ws, e) && UserMeant(ws, e)
  {
    assert args[0] == name && (|ws| > 0 ==> args[1] == ws[0]) && (|ws| > 1 ==> args[2] == ws[1]);
    if |ws| == 2 {
      ListedIs(ws[1], e.user);
    }
  }

  // ---- Reading a line back ---------------------------------------------------------------

  /** The six fields of an entry as a line shows them. */
  function Fields(e: Entry, meth: string): seq<string> { [e.xclass, e.name, e.kind, meth, e.user, e.info] }

  predicate AllWords(ws: seq<string>) { forall k :: 0 <= k < |ws| ==> IsWord(ws[k]) }

  /** The line of an entry, if it is not cut off, is read as its fields: the method is that of the name server
      for a proxy and for a lookup by method, and that of the entry otherwise. */
  lemma LineReads(nsmethod: string, q: Query, e: Entry, meth: string)
    requires meth == if q.byMethod || (e.meth != "" && e.meth[0] == '@') then nsmethod else e.meth
    requires AllWords(Fields(e, meth)) && |Spaced(Fields(e, meth))| < SZ_LINE
    ensures Tokens(Line(nsmethod, q, e), IsSpace) == Fields(e, meth)
    ensures var line := Line(nsmethod, q, e); line != "" && line[|line| - 1] == '\n'
  {
    var fields, line := Fields(e, meth), Line(nsmethod, q, e);
    WrittenLine(e.xclass, e.name, e.kind, meth, e.user, e.info, fields, line);
    TokensOfLine(fields, "\n");
    assert IsWord(fields[0]) && line[0] == fields[0][0];
    LeadingBlank(line);
  }

  lemma SpacedFirst(w: string, ws: seq<string>)
    ensures Spaced([w] + ws) == " " + (w + Spaced(ws))
  {
    assert ([w] + ws)[1..] == ws;
  }

  lemma SpacedSix(a: string, b: string, c: string, d: string, e: string, f: string)
    ensures Spaced([a, b, c, d, e, f])
         == " " + (a + (" " + (b + (" " + (c + (" " + (d + (" " + (e + (" " + f))))))))))
  {
    SpacedFirst(f, []);
    assert [f] + [] == [f] && f + "" == f;
    SpacedFirst(e, [f]);
    SpacedFirst(d, [e] + [f]);
    SpacedFirst(c, [d] + ([e] + [f]));
    SpacedFirst(b, [c] + ([d] + ([e] + [f])));
    SpacedFirst(a, [b] + ([c] + ([d] + ([e] + [f]))));
    assert [a, b, c, d, e, f] == [a] + ([b] + ([c] + ([d] + ([e] + [f]))));
  }

  lemma SixFields(a: string, b: string, c: string, d: string, e: string, f: string, spaced: string)
    requires spaced == " " + (a + (" " + (b + (" " + (c + (" " + (d + (" " + (e + (" " + f))))))))))
    ensures " " + (a + " " + b + " " + c + " " + d + " " + e + " " + f + "\n") == spaced + "\n"
  {}

  lemma WrittenLine(a: string, b: string, c: string, d: string, e: string, f: string, fields: seq<string>, line: string)
    requires fields == [a, b, c, d, e, f] && |Spaced(fields)| < SZ_LINE && a != ""
    requires line == Truncated(a + " " + b + " " + c + " " + d + " " + e + " " + f + "\n")
    ensures " " + line == Spaced(fields) + "\n" && line != "" && line[|line| - 1] == '\n' && line[0] == a[0]
  {
    SpacedSix(a, b, c, d, e, f);
    SixFields(a, b, c, d, e, f, Spaced(fields));
    var whole := a + " " + b + " " + c + " " + d + " " + e + " " + f + "\n";
    assert |" " + whole| == |Spaced(fields)| + 1;
    EndOfLine(whole, Spaced(fields));
    assert whole[0] == a[0];
  }

  lemma EndOfLine(line: string, spaced: string)
    requires " " + line == spaced + "\n" && line != ""
    ensures line[|line| - 1] == '\n'
  {
    assert line[|line| - 1] == (" " + line)[|line|] == (spaced + "\n")[|spaced|];
  }

  /** Words separated by single blanks, before the end of a line, are read back. */
  lemma {:induction false} TokensOfLine(ws: seq<string>, end: string)
    requires AllWords(ws) && end == "\n"
    ensures Tokens(Spaced(ws) + end, IsSpace) == ws
  {
    if ws == [] {
      assert Spaced(ws) + end == end && end[1..] == "";
    } else {
      TokensOfLine(ws[1..], end);
      SpacedStarts(ws[1..]);
      OneMoreToken(ws[0], Spaced(ws[1..]), end, ws[1..]);
    }
  }

  lemma OneMoreToken(w: string, spaced: string, end: string, ws: seq<string>)
    requires IsWord(w) && end == "\n" && (spaced != "" ==> spaced[0] == ' ') && Tokens(spaced + end, IsSpace) == ws
    ensures Tokens(" " + (w + spaced) + end, IsSpace) == [w] + ws
  {
    var rest := spaced + end;
    assert rest[0] == if spaced == "" then end[0] else spaced[0];
    FirstToken(w, rest);
    EndBehind(w, spaced, end, rest);
  }

  lemma EndBehind(w: string, spaced: string, end: string, rest: string)
    requires rest == spaced + end
    ensures " " + (w + spaced) + end == " " + (w + rest)
  {}

  // ---- From a registration to a reply ----------------------------------------------------

  /** A lookup of an entry by its own class, name, type and user shows a line with its fields. */
  lemma EntryIsFound(tmatch: (string, string) -> bool, nsmethod: string, reqs: seq<Req>, e: Entry, meth: string)
    returns (line: string)
    requires Registered(reqs, e) && tmatch(e.xclass, e.xclass) && tmatch(e.name, e.name)
    requires meth == if e.meth != "" && e.meth[0] == '@' then nsmethod else e.meth
    requires AllWords(Fields(e, meth)) && |Spaced(Fields(e, meth))| < SZ_LINE
    requires e.xclass[0] != '@' && ':' !in e.xclass
    ensures var text := Words(e.xclass, e.name, [e.kind, e.user]);
            && Asked(text) != [] && line in AllLines(Search(tmatch, nsmethod, QueryOf(Asked(text))), reqs)
            && Tokens(line, IsSpace) == Fields(e, meth)
  {
    var ws := [e.kind, e.user];
    var text := Words(e.xclass, e.name, ws);
    OwnWords(e, meth);
    ClassFound(tmatch, e.xclass, e.name, ws, e);
    AddressSplit(e.xclass, e.name, ws);
    var q := QueryOf(Asked(text));
    line := Line(nsmethod, q, e);
    LineReads(nsmethod, q, e, meth);
    LineThere(Search(tmatch, nsmethod, q), reqs, e, line);
  }

  lemma OwnWords(e: Entry, meth: string)
    requires AllWords(Fields(e, meth))
    ensures IsWord(e.xclass) && IsWord(e.name) && IsWord(e.kind) && IsWord(e.user)
    ensures KindMeant([e.kind, e.user], e)
  {
    var fields := Fields(e, meth);
    assert IsWord(fields[0]) && IsWord(fields[1]) && IsWord(fields[2]) && IsWord(fields[4]);
    assert e.kind[0] in e.kind;
  }

  lemma LineThere(s: Search, reqs: seq<Req>, e: Entry, line: string)
    requires Registered(reqs, e) && Wanted(s.tmatch, s.q, e) && line == Line(s.nsmethod, s.q, e)
    ensures line in AllLines(s, reqs)
  {
    var i :| 0 <= i < |reqs| && e in reqs[i].entries;
    assert Shows(s, reqs[i].entries, line);
    ReplyTells(s, reqs, line);
  }

  lemma AddedIsThere(reqs: seq<Req>, c: nat, e: Entry)
    requires c < |reqs|
    ensures Registered(Added(reqs, c, e), e)
  {
    if !Registered(reqs, e) {
      assert e in Added(reqs, c, e)[c].entries;
    }
  }

  /** What a program registers with add is what a lookup of its class, name, type and user shows: the words of
      its request, with the method as corrected and then the original one if there is a correction. */
  lemma AddedIsFound(cfg: Config, reqs: seq<Req>, c: nat, addr: string, cls: string, name: string, kind: string,
                     user: string, meth: string, tmatch: (string, string) -> bool, nsmethod: string)
    returns (line: string)
    requires c < |reqs| && tmatch(cls, cls) && tmatch(name, name)
    requires meth == if cfg.firewall(reqs[c].ip, addr) == addr then addr
                     else cfg.firewall(reqs[c].ip, addr) + "," + addr
    requires AllWords([cls, name, kind, meth, user]) && |Spaced([cls, name, kind, meth, user, DEFAULT_INFO])| < SZ_LINE
    requires At(meth, 0) != '@' && At(cls, 0) != '@' && ':' !in cls
    ensures var text := Words(cls, name, [kind, user]);
            && Asked(text) != []
            && line in AllLines(Search(tmatch, nsmethod, QueryOf(Asked(text))),
                                After(cfg, reqs, c, Add([addr, cls, name, kind, user])))
            && Tokens(line, IsSpace) == [cls, name, kind, meth, user, "NONE"]
  {
    var w := [addr, cls, name, kind, user];
    var e := Entry(cls, name, meth, kind, user, DEFAULT_INFO);
    FieldsFit(cls, name, kind, meth, user, DEFAULT_INFO);
    assert PlainEntry(cfg, reqs[c].ip, w) == e;
    AddedIsThere(reqs, c, e);
    FiveWords(cls, name, kind, meth, user);
    assert AllWords(Fields(e, meth));
    line := EntryIsFound(tmatch, nsmethod, After(cfg, reqs, c, Add(w)), e, meth);
  }

  lemma FiveWords(a: string, b: string, c: string, d: string, e: string)
    requires AllWords([a, b, c, d, e])
    ensures IsWord(a) && IsWord(b) && IsWord(c) && IsWord(d) && IsWord(e)
  {
    var ws := [a, b, c, d, e];
    assert IsWord(ws[0]) && IsWord(ws[1]) && IsWord(ws[2]) && IsWord(ws[3]) && IsWord(ws[4]);
  }

  lemma FieldsFit(a: string, b: string, c: string, d: string, e: string, f: string)
    requires |Spaced([a, b, c, d, e, f])| < SZ_LINE
    ensures |d| < SZ_LINE
  {
    SpacedSix(a, b, c, d, e, f);
  }

  /** The same for a proxy: the line shows the method of the name server, and the printed information. */
  lemma AddedProxyIsFound(cfg: Config, reqs: seq<Req>, c: nat, addr: string, cls: string, name: string, kind: string,
                          user: string, info: string, tmatch: (string, string) -> bool, nsmethod: string)
    returns (line: string)
    requires c < |reqs| && tmatch(cls, cls) && tmatch(name, name) && cfg.proxies && cfg.inet(addr)
    requires info == ProxyInfo.Printed(reqs[c].sock, cls, name, cfg.firewall(reqs[c].ip, addr), addr)
    requires AllWords([cls, name, kind, nsmethod, user]) && IsWord(info)
    requires |Spaced([cls, name, kind, nsmethod, user, info])| < SZ_LINE && At(cls, 0) != '@' && ':' !in cls
    ensures var text := Words(cls, name, [kind, user]);
            && Asked(text) != []
            && line in AllLines(Search(tmatch, nsmethod, QueryOf(Asked(text))),
                                After(cfg, reqs, c, AddProxy([addr, cls, name, kind, user])))
            && Tokens(line, IsSpace) == [cls, name, kind, nsmethod, user, info]
  {
    var w := [addr, cls, name, kind, user];
    var e := ProxyEntry(cfg, reqs[c], w);
    SpacedSix(cls, name, kind, nsmethod, user, info);
    assert e.info == info && e.xclass == cls && e.name == name && e.kind == kind && e.user == user;
    assert e.meth[0] == '@';
    AddedIsThere(reqs, c, e);
    FiveWords(cls, name, kind, nsmethod, user);
    assert AllWords(Fields(e, nsmethod));
    line := EntryIsFound(tmatch, nsmethod, After(cfg, reqs, c, AddProxy(w)), e, nsmethod);
  }

  /** Looking up a proxy by its address finds what is meant if a type and users are given.  If both are left
      out, the port is also taken for the types, so that a type has to be among its characters; and
      if only the users are left out, the entry is not found. */
  lemma AddressAlone(tmatch: (string, string) -> bool, host: string, port: string, ws: seq<string>, e: Entry)
    requires IsWord(host) && host[0] == '@' && ':' !in host && IsWord(port) && |host| + |port| + 1 < SZ_LINE
    requires |ws| <= 2 && (forall k :: 0 <= k < |ws| ==> IsWord(ws[k])) && e.meth == host + ":" + port
    ensures Finds(tmatch, Words(host, port, ws), e)
      <==> KindMeant(ws, e) && UserMeant(ws, e) && (|ws| == 2 || (|ws| == 0 && KindMeant([port], e)))
  {
    AddressSplit(host, port, ws);
    AddressQuery(tmatch, host, port, ws, [host] + ([port] + ws), e);
  }

  lemma AddressQuery(tmatch: (string, string) -> bool, host: string, port: string, ws: seq<string>, args: seq<string>,
                     e: Entry)
    requires host != "" && host[0] == '@' && |host| + |port| + 1 < SZ_LINE && e.meth == host + ":" + port
    requires |ws| <= 2 && args == [host] + ([port] + ws)
    ensures Wanted(tmatch, QueryOf(args), e)
      <==> KindMeant(ws, e) && UserMeant(ws, e) && (|ws| == 2 || (|ws| == 0 && KindMeant([port], e)))
  {
    assert args[0] == host && args[1] == port && Truncated(host + ":" + port) == e.meth;
    assert |host| != |e.meth|;
    assert |ws| > 0 ==> args[2] == ws[0];
    assert |ws| > 1 ==> args[3] == ws[1];
    if |ws| == 2 {
      ListedIs(ws[1], e.user);
    }
  }

  /** A proxy of a type that has no character of its port is not found by its address, nor with its type
      alone, but with its type and any user: @7f000001:28571 with type gs, for one. */
  lemma AddressNeedsUser(tmatch: (string, string) -> bool, host: string, port: string, e: Entry, any: string)
    requires host == "@7f000001" && port == "28571" && any == "*" && e.kind == "gs" && e.meth == host + ":" + port
    ensures !Finds(tmatch, Words(host, port, []), e) && !Finds(tmatch, Words(host, port, [e.kind]), e)
    ensures Finds(tmatch, Words(host, port, [e.kind, any]), e)
  {
    assert port != any && IsWord(e.kind) && !KindMeant([port], e);
    AddressAlone(tmatch, host, port, [], e);
    AddressAlone(tmatch, host, port, [e.kind], e);
    AddressAlone(tmatch, host, port, [e.kind, any], e);
    assert e.kind[0] in e.kind;
  }

  /** A proxy that was added without a correction is found by its address behind an @, with its type and user. */
  lemma ProxyByAddress(cfg: Config, reqs: seq<Req>, c: nat, host: string, port: string, cls: string, name: string,
                       kind: string, user: string, tmatch: (string, string) -> bool) returns (e: Entry)
    requires c < |reqs| && cfg.proxies && IsWord("@" + host) && ':' !in host && IsWord(port)
    requires |host| + |port| + 2 < SZ_LINE
    requires cfg.inet(host + ":" + port) && cfg.firewall(reqs[c].ip, host + ":" + port) == host + ":" + port
    requires IsWord(kind) && IsWord(user)
    ensures var after := After(cfg, reqs, c, AddProxy([host + ":" + port, cls, name, kind, user]));
            && Registered(after, e) && Finds(tmatch, Words("@" + host, port, [kind, user]), e)
            && e.xclass == cls && e.name == name && e.kind == kind && e.user == user
  {
    var addr := host + ":" + port;
    e := ProxyEntry(cfg, reqs[c], [addr, cls, name, kind, user]);
    AddedIsThere(reqs, c, e);
    assert "@" + addr == "@" + host + ":" + port;
    OwnAddress(tmatch, "@" + host, port, kind, user, e);
  }

  lemma OwnAddress(tmatch: (string, string) -> bool, host: string, port: string, kind: string, user: string, e: Entry)
    requires IsWord(host) && host[0] == '@' && ':' !in host && IsWord(port) && |host| + |port| + 1 < SZ_LINE
    requires IsWord(kind) && IsWord(user) && e.meth == host + ":" + port && e.kind == kind && e.user == user
    ensures Finds(tmatch, Words(host, port, [kind, user]), e)
  {
    var ws := [kind, user];
    assert ws[0] == kind && ws[1] == user && kind[0] in kind;
    AddressAlone(tmatch, host, port, ws, e);
  }
}
