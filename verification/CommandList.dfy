/** The command list of an access point and its longest-match lookup (libxpa/command.c). */
module CommandList {
  import opened Common
  import opened Tokenizer
  import opened CommandNames
  import opened CommandWords

  // ---- Commands and their list -----------------------------------------------------------

  /** struct xpacmdrec; `stamp` numbers the commands in the order in which they were created. */
  class XpaCmd {
    const name: string
    const ntokens: nat
    ghost const stamp: nat

    constructor (name: string, ntokens: nat, ghost stamp: nat)
      ensures this.name == name && this.ntokens == ntokens && this.stamp == stamp
    {
      this.name, this.ntokens, this.stamp := name, ntokens, stamp;
    }
  }

  /** In front of each command stand only names that come before it, and, among equal names, newer
      commands. */
  ghost predicate InOrder(a: XpaCmd, b: XpaCmd) {
    Before(a.name, b.name) && (a.name == b.name ==> a.stamp > b.stamp)
  }

  ghost predicate Sorted(cmds: seq<XpaCmd>) {
    forall i, j :: 0 <= i < j < |cmds| ==> InOrder(cmds[i], cmds[j])
  }

  /** The command is named by the first tokens of the input. */
  predicate Matches(cmd: XpaCmd, input: string, d: Table) {
    var name := Build(input, d, cmd.ntokens).name;
    name != "" && cmd.name == name
  }

  /** The first match in a sorted list has the most tokens, and is the newest of its name. */
  lemma FirstIsLongest(a: XpaCmd, b: XpaCmd, input: string, d: Table)
    requires InOrder(a, b) && Matches(a, input, d) && Matches(b, input, d)
    ensures b.ntokens < a.ntokens || (a.name == b.name && a.stamp > b.stamp)
  {
    if a.ntokens <= b.ntokens {
      LongerName(input, d, a.ntokens, b.ntokens, a.name, b.name);
      PrefixLast(a.name, b.name);
    }
  }

  /** The command has these words for its name. */
  ghost predicate IsNamed(c: XpaCmd, ws: seq<string>) {
    ws != [] && PlainWords(ws) && c.name == Joined(ws) && c.ntokens == |ws| && |c.name| <= XPA_NAMELEN
  }

  /** A command of its own whose words begin the text is found, unless one with more words is, or a newer one
      of the same name. */
  ghost predicate OwnFirst(own: seq<XpaCmd>, text: string, d: Table, found: XpaCmd?) {
    forall c, ws :: c in own && IsNamed(c, ws) && BeginsWith(text, d, ws) ==>
      && found != null && found in own
      && (|ws| < found.ntokens || (found.name == Joined(ws) && c.stamp <= found.stamp))
  }

  /** Else a reserved command whose one word begins the text is found, or a newer one of that name. */
  ghost predicate ReservedNext(own: seq<XpaCmd>, reserved: seq<XpaCmd>, text: string, d: Table, found: XpaCmd?) {
    forall c, ws :: c in reserved && IsNamed(c, ws) && |ws| == 1 && BeginsWith(text, d, ws) ==>
      found != null && (found in own || (found in reserved && found.name == ws[0] && c.stamp <= found.stamp))
  }

  /** The words of the command begin the text, and n characters hold them and the separator behind them. */
  ghost predicate Taken(c: XpaCmd, text: string, d: Table, n: nat) {
    forall ws :: IsNamed(c, ws) ==> BeginsUpTo(text, d, ws, n)
  }

  ghost predicate BeginsUpTo(text: string, d: Table, ws: seq<string>, n: nat) {
    exists e :: Begins(text, d, ws, e) && n == Past(text, e)
  }

  /** What a lookup finds, in terms of words. */
  ghost predicate Answers(own: seq<XpaCmd>, reserved: seq<XpaCmd>, text: string, d: Table, found: XpaCmd?, n: nat) {
    && OwnFirst(own, text, d, found) && ReservedNext(own, reserved, text, d, found)
    && (found != null && Unquoted(text) ==> Taken(found, text, d, n))
  }

  /** The name is given as these words, with at most one blank at the end. */
  ghost predicate GivenAs(name: string, d: Table, ws: seq<string>) {
    ws != [] && PlainWords(ws) && BeginsUpTo(name, d, ws, |name|)
  }

  lemma NamedAsGiven(c: XpaCmd, name: string, ws: seq<string>)
    requires GivenAs(name, NO_DELIMITERS, ws) && |name| <= XPA_NAMELEN
    requires (c.name, c.ntokens) == ParseNames(name, NO_DELIMITERS, 0, "", 0)
    ensures IsNamed(c, ws)
  {
    var e: nat :| Begins(name, NO_DELIMITERS, ws, e) && Past(name, e) == |name|;
    ParseBegins(name, ws, e);
    JoinedFits(name, NO_DELIMITERS, ws, e);
  }

  lemma WordsMatch(c: XpaCmd, ws: seq<string>, text: string, d: Table)
    requires IsNamed(c, ws) && BeginsWith(text, d, ws)
    ensures Matches(c, text, d)
  {
    NameOfWords(text, d, ws);
    JoinedNonEmpty(ws);
  }

  lemma MatchIsWords(c: XpaCmd, ws: seq<string>, text: string, d: Table) returns (e: nat)
    requires IsNamed(c, ws) && Unquoted(text) && Matches(c, text, d)
    ensures Begins(text, d, ws, e) && Build(text, d, c.ntokens).lp2 == Past(text, e)
  {
    e := WordsOfName(text, d, ws);
    BuildBegins(text, d, ws, e);
  }

  lemma FirstWord(text: string, d: Table, ws: seq<string>)
    requires PlainWords(ws) && |ws| == 1 && BeginsWith(text, d, ws)
    ensures text != "" && var r := NextWord(text, d, 0); r.Found? && r.token == ws[0] == Joined(ws)
  {
    var e: nat :| Begins(text, d, ws, e);
    JoinedFits(text, d, ws, e);
    var pre, w, e0, i := LastStep(text, d, ws, e);
  }

  lemma FirstIsWords(c: XpaCmd, ws: seq<string>, text: string, d: Table) returns (e: nat)
    requires IsNamed(c, ws) && Unquoted(text) && NamedFirst(c, text, d)
    ensures Begins(text, d, ws, e) && NextWord(text, d, 0).ptr == Past(text, e)
  {
    var b := SkipSeparators(text, d, 0);
    JoinedNonEmpty(ws);
    var w;
    w, e := WordFrom(text, d, 0, b);
    NoSpaces(w);
    JoinedSpaces(ws);
    assert ws == [w];
    OneMoreBegins(text, d, [], 0, b, e, w, ws);
  }

  class Xpa {
    var commands: seq<XpaCmd>
    ghost var created: nat

    constructor ()
      ensures Valid() && commands == []
    {
      commands, created := [], 0;
    }

    ghost predicate Valid()
      reads this
    {
      Sorted(commands) && forall k :: 0 <= k < |commands| ==> commands[k].stamp < created
    }

    /** The loop of XPACmdAdd that enters the new command into the list. */
    method Enter(xnew: XpaCmd)
      requires Valid() && xnew.stamp == created
      modifies this
      ensures Valid() && exists k :: Inserted(old(commands), k, xnew, commands)
    {
      var cur := 0;
      while cur < |commands|
        invariant cur <= |commands| && unchanged(this)
        invariant forall j :: 0 <= j < cur ==> !Before(xnew.name, commands[j].name)
      {
        var name := commands[cur].name;
        StopsBeforeIsBefore(xnew.name, name);
        LessTotal(xnew.name, name);
        if xnew.name == name {
          break;
        } else if name <= xnew.name {
          break;
        } else if xnew.name <= name {
        } else if Less(name, xnew.name) {
        } else {
          break;
        }
        cur := cur + 1;
      }
      InsertSorted(commands, cur, xnew);
      commands, created := commands[..cur] + [xnew] + commands[cur..], created + 1;
      assert Inserted(old(commands), cur, xnew, commands);
    }

    /** XPACmdAdd: `attached` says that the record is a valid command access point, `callbacks` that
        a send or receive callback is given. */
    method CmdAdd(words: Tokens, name: string, attached: bool, callbacks: bool) returns (xnew: XpaCmd?)
      requires Valid() && InTable(name) && words.dtable == NO_DELIMITERS
      modifies this, words`lastd
      ensures Valid() && (xnew != null <==> attached && callbacks && |name| <= XPA_NAMELEN)
      ensures xnew == null ==> commands == old(commands)
      ensures xnew != null ==> exists k :: Inserted(old(commands), k, xnew, commands)
      ensures xnew != null ==> (xnew.name, xnew.ntokens) == ParseNames(name, NO_DELIMITERS, 0, "", 0)
      ensures xnew != null ==> forall ws :: GivenAs(name, words.dtable, ws) ==> IsNamed(xnew, ws)
    {
      if !attached || !callbacks || |name| > XPA_NAMELEN {
        return null;
      }
      var buf, ntokens := ParseName(words, name);
      var cmd := new XpaCmd(buf, ntokens, created);
      forall ws | GivenAs(name, words.dtable, ws)
        ensures IsNamed(cmd, ws)
      {
        NamedAsGiven(cmd, name, ws);
      }
      Enter(cmd);
      return cmd;
    }

    /** XPACmdDel. */
    method CmdDel(cmd: XpaCmd?) returns (status: int)
      requires Valid()
      modifies this`commands
      ensures Valid()
      ensures status == if cmd != null && cmd in old(commands) then 0 else -1
      ensures status == -1 ==> commands == old(commands)
      ensures status == 0 ==> cmd !in commands && exists k :: Inserted(commands, k, cmd, old(commands))
    {
      if cmd == null {
        return -1;
      }
      var cur := 0;
      while cur < |commands|
        invariant cur <= |commands| && unchanged(this) && cmd !in commands[..cur]
      {
        if commands[cur] == cmd {
          Distinct(commands);
          commands := commands[..cur] + commands[cur + 1..];
          assert Inserted(commands, cur, cmd, old(commands));
          return 0;
        }
        cur := cur + 1;
      }
      return -1;
    }

    /** XPACmdLookupReserved, on the record of the reserved commands: the newest command that is named by
        the first word. */
    method CmdLookupReserved(words: Tokens, lbuf: string, lp: nat) returns (found: XpaCmd?, lp': nat)
      requires Valid() && InTable(lbuf) && lp <= |lbuf|
      modifies words`lastd
      ensures found == null ==> lp' == lp
      ensures found == null <==> lp == |lbuf| || forall c :: c in commands ==> !NamedFirst(c, lbuf[lp..], words.dtable)
      ensures found != null ==> found in commands && NamedFirst(found, lbuf[lp..], words.dtable)
      ensures found != null ==> lp' == lp + NextWord(lbuf[lp..], words.dtable, 0).ptr
      ensures found != null ==>
                forall c :: c in commands && NamedFirst(c, lbuf[lp..], words.dtable) ==> c.stamp <= found.stamp
    {
      if lp == |lbuf| {
        return null, lp;
      }
      var lptr := lbuf[lp..];
      var ok, name, lp2 := words.Word(lptr, 0);
      if !ok {
        return null, lp;
      }
      var i := 0;
      while i < |commands|
        invariant i <= |commands| && forall j :: 0 <= j < i ==> commands[j].name != name
      {
        if name == commands[i].name {
          NewestFirst(commands, i);
          assert commands[i] in commands && NamedFirst(commands[i], lbuf[lp..], words.dtable);
          return commands[i], lp + lp2;
        }
        i := i + 1;
      }
      return null, lp;
    }

    /** XPACmdLookup; rxpa is the record of the reserved commands, if there is one.  A command of its own
        that is named by the first words goes before a reserved one. */
    method CmdLookup(words: Tokens, rxpa: Xpa?, lbuf: string, lp: nat) returns (found: XpaCmd?, lp': nat)
      requires Valid() && (rxpa != null ==> rxpa.Valid()) && InTable(lbuf) && lp <= |lbuf|
      modifies words`lastd
      ensures found == null ==> lp' == lp
      ensures found == null <==>
                || lp == |lbuf|
                || ((forall c :: c in commands ==> !Matches(c, lbuf[lp..], words.dtable))
                    && (rxpa == null || forall c :: c in rxpa.commands ==> !NamedFirst(c, lbuf[lp..], words.dtable)))
      ensures lp < |lbuf| && (exists c :: c in commands && Matches(c, lbuf[lp..], words.dtable)) ==>
                && found != null && found in commands && Matches(found, lbuf[lp..], words.dtable)
                && lp' == lp + Build(lbuf[lp..], words.dtable, found.ntokens).lp2
                && forall c :: c in commands && Matches(c, lbuf[lp..], words.dtable) ==>
                     c.ntokens < found.ntokens || (c.name == found.name && c.stamp <= found.stamp)
      ensures found != null && (forall c :: c in commands ==> !Matches(c, lbuf[lp..], words.dtable)) ==>
                && rxpa != null && found in rxpa.commands && NamedFirst(found, lbuf[lp..], words.dtable)
                && lp' == lp + NextWord(lbuf[lp..], words.dtable, 0).ptr
                && forall c :: c in rxpa.commands && NamedFirst(c, lbuf[lp..], words.dtable) ==> c.stamp <= found.stamp
      ensures lp <= lp' && Answers(commands, if rxpa == null then [] else rxpa.commands, lbuf[lp..], words.dtable,
                                   found, lp' - lp)
    {
      found, lp' := LookupOwn(words, lbuf, lp);
      if found == null && rxpa != null {
        found, lp' := rxpa.CmdLookupReserved(words, lbuf, lp);
        ReservedAnswers(commands, rxpa.commands, lbuf[lp..], words.dtable, found, lp' - lp);
      } else {
        OwnAnswers(commands, if rxpa == null then [] else rxpa.commands, lbuf[lp..], words.dtable, found, lp' - lp);
      }
    }

    /** Its search through the commands of its own: the match with the most tokens, and the newest of
        that name. */
    method LookupOwn(words: Tokens, lbuf: string, lp: nat) returns (found: XpaCmd?, lp': nat)
      requires Valid() && InTable(lbuf) && lp <= |lbuf|
      modifies words`lastd
      ensures found == null ==> lp' == lp
      ensures found == null <==> lp == |lbuf| || forall c :: c in commands ==> !Matches(c, lbuf[lp..], words.dtable)
      ensures found != null ==> found in commands && Matches(found, lbuf[lp..], words.dtable)
      ensures found != null ==> lp' == lp + Build(lbuf[lp..], words.dtable, found.ntokens).lp2
      ensures found != null ==> forall c :: c in commands && Matches(c, lbuf[lp..], words.dtable) ==>
                c.ntokens < found.ntokens || (c.name == found.name && c.stamp <= found.stamp)
    {
      if lp == |lbuf| {
        return null, lp;
      }
      var i, lp2 := Scan(words, lbuf[lp..]);
      if i == |commands| {
        return null, lp;
      }
      FirstMatch(commands, i, lbuf[lp..], words.dtable);
      return commands[i], lp + lp2;
    }

    /** The loop over the list: the first match. */
    method Scan(words: Tokens, lptr: string) returns (i: nat, lp2: nat)
      requires InTable(lptr)
      modifies words`lastd
      ensures i <= |commands| && forall j :: 0 <= j < i ==> !Matches(commands[j], lptr, words.dtable)
      ensures i < |commands| ==>
                Matches(commands[i], lptr, words.dtable) && lp2 == Build(lptr, words.dtable, commands[i].ntokens).lp2
    {
      i := 0;
      while i < |commands|
        invariant i <= |commands| && NoneMatches(commands[..i], lptr, words.dtable)
      {
        var name;
        name, lp2 := BuildName(words, lptr, commands[i].ntokens);
        if name != "" && commands[i].name == name {
          NoneIs(commands, i, lptr, words.dtable);
          return;
        }
        OneMore(commands, i, i + 1, lptr, words.dtable);
        i := i + 1;
      }
      NoneIs(commands, i, lptr, words.dtable);
      lp2 := 0;
    }
  }

  lemma OwnMatch(own: seq<XpaCmd>, text: string, d: Table)
    ensures forall c, ws :: c in own && IsNamed(c, ws) && BeginsWith(text, d, ws) ==> Matches(c, text, d) && text != ""
  {
    forall c, ws | c in own && IsNamed(c, ws) && BeginsWith(text, d, ws)
      ensures Matches(c, text, d) && text != ""
    {
      WordsMatch(c, ws, text, d);
      TextHasWords(text, d, ws);
    }
  }

  lemma OwnAnswers(own: seq<XpaCmd>, reserved: seq<XpaCmd>, text: string, d: Table, found: XpaCmd?, n: nat)
    requires found == null ==> reserved == []
    requires found == null <==> text == "" || forall c :: c in own ==> !Matches(c, text, d)
    requires found != null ==> found in own && Matches(found, text, d) && n == Build(text, d, found.ntokens).lp2
    requires found != null ==> forall c :: c in own && Matches(c, text, d) ==>
               c.ntokens < found.ntokens || (c.name == found.name && c.stamp <= found.stamp)
    ensures Answers(own, reserved, text, d, found, n)
  {
    OwnMatch(own, text, d);
    if found != null && Unquoted(text) {
      forall ws | IsNamed(found, ws)
        ensures BeginsUpTo(text, d, ws, n)
      {
        var e := MatchIsWords(found, ws, text, d);
      }
    }
  }

  lemma TextHasWords(text: string, d: Table, ws: seq<string>)
    requires PlainWords(ws) && ws != [] && BeginsWith(text, d, ws)
    ensures text != ""
  {
    var e: nat :| Begins(text, d, ws, e);
    JoinedFits(text, d, ws, e);
  }

  lemma ReservedAnswers(own: seq<XpaCmd>, reserved: seq<XpaCmd>, text: string, d: Table, found: XpaCmd?, n: nat)
    requires text == "" || forall c :: c in own ==> !Matches(c, text, d)
    requires found == null <==> text == "" || forall c :: c in reserved ==> !NamedFirst(c, text, d)
    requires found != null ==> found in reserved && NamedFirst(found, text, d) && n == NextWord(text, d, 0).ptr
    requires found != null ==> forall c :: c in reserved && NamedFirst(c, text, d) ==> c.stamp <= found.stamp
    ensures Answers(own, reserved, text, d, found, n)
  {
    OwnMatch(own, text, d);
    forall c, ws | c in reserved && IsNamed(c, ws) && |ws| == 1 && BeginsWith(text, d, ws)
      ensures NamedFirst(c, text, d) && c.name == ws[0] && text != ""
    {
      FirstWord(text, d, ws);
    }
    if found != null && Unquoted(text) {
      forall ws | IsNamed(found, ws)
        ensures BeginsUpTo(text, d, ws, n)
      {
        var e := FirstIsWords(found, ws, text, d);
      }
    }
  }

  /** None of these commands is named.  The definition only unfolds where a proof mentions Unfold. */
  ghost predicate NoneMatches(cmds: seq<XpaCmd>, input: string, d: Table) {
    forall n {:trigger Unfold(n)} :: Unfold(n) ==> forall j :: 0 <= j < |cmds| ==> !Matches(cmds[j], input, d)
  }

  lemma OneMore(cmds: seq<XpaCmd>, i: nat, next: nat, input: string, d: Table)
    requires i < |cmds| && next == i + 1 && NoneMatches(cmds[..i], input, d) && !Matches(cmds[i], input, d)
    ensures NoneMatches(cmds[..next], input, d)
  {
    assert Unfold(0);
    assert forall j :: 0 <= j < i ==> cmds[..next][j] == cmds[..i][j];
  }

  lemma NoneIs(cmds: seq<XpaCmd>, i: nat, input: string, d: Table)
    requires i <= |cmds| && NoneMatches(cmds[..i], input, d)
    ensures forall j :: 0 <= j < i ==> !Matches(cmds[j], input, d)
  {
    assert Unfold(0);
    assert forall j :: 0 <= j < i ==> cmds[..i][j] == cmds[j];
  }

  lemma Distinct(cmds: seq<XpaCmd>)
    requires Sorted(cmds)
    ensures forall i, j :: 0 <= i < j < |cmds| ==> cmds[i] != cmds[j]
  {
    forall i, j | 0 <= i < j < |cmds|
      ensures cmds[i] != cmds[j]
    {
      assert InOrder(cmds[i], cmds[j]);
    }
  }

  /** The command is named by the first word of the input. */
  predicate NamedFirst(cmd: XpaCmd, input: string, d: Table) {
    var r := NextWord(input, d, 0); r.Found? && cmd.name == r.token
  }

  lemma NewestFirst(cmds: seq<XpaCmd>, i: nat)
    requires Sorted(cmds) && i < |cmds| && forall j :: 0 <= j < i ==> cmds[j].name != cmds[i].name
    ensures forall c :: c in cmds && c.name == cmds[i].name ==> c.stamp <= cmds[i].stamp
  {
    forall c | c in cmds && c.name == cmds[i].name
      ensures c.stamp <= cmds[i].stamp
    {
      var j :| 0 <= j < |cmds| && cmds[j] == c;
      if i < j {
        assert InOrder(cmds[i], cmds[j]);
      }
    }
  }

  lemma FirstMatch(cmds: seq<XpaCmd>, i: nat, input: string, d: Table)
    requires Sorted(cmds)
    requires i < |cmds| && Matches(cmds[i], input, d) && forall j :: 0 <= j < i ==> !Matches(cmds[j], input, d)
    ensures forall c :: c in cmds && Matches(c, input, d) ==>
              c.ntokens < cmds[i].ntokens || (c.name == cmds[i].name && c.stamp <= cmds[i].stamp)
  {
    forall c | c in cmds && Matches(c, input, d)
      ensures c.ntokens < cmds[i].ntokens || (c.name == cmds[i].name && c.stamp <= cmds[i].stamp)
    {
      var j :| 0 <= j < |cmds| && cmds[j] == c;
      if i < j {
        FirstIsLongest(cmds[i], c, input, d);
      }
    }
  }

  /** The inner loop of XPACmdLookup. */
  method BuildName(words: Tokens, lptr: string, ntokens: nat) returns (name: string, lp2: nat)
    requires InTable(lptr)
    modifies words`lastd
    ensures name == Build(lptr, words.dtable, ntokens).name && lp2 == Build(lptr, words.dtable, ntokens).lp2
  {
    var b := Built("", 0, 0, false);
    var i := 0;
    while i < ntokens && !b.broke
      invariant i <= ntokens && Build(lptr, words.dtable, i) == b
    {
      b := TakeToken(words, lptr, b);
      i := i + 1;
    }
    BrokeForGood(lptr, words.dtable, i, ntokens);
    return b.name, b.lp2;
  }

  /** The body of that loop. */
  method TakeToken(words: Tokens, lptr: string, b: Built) returns (b': Built)
    requires InTable(lptr) && b.lp2 <= |lptr| && !b.broke
    modifies words`lastd
    ensures b' == Extend(lptr, words.dtable, b)
  {
    b' := b;
    var ok, tbuf, lp2 := words.Word(lptr, b.lp2);
    b' := b'.(lp2 := lp2);
    if ok {
      var len := |tbuf| + 1;
      if b.tlen + len <= SZ_LINE - 1 {
        b' := Built(NameWith(b.name, tbuf), b.tlen + len, lp2, false);
      } else {
        b' := Built("", b.tlen, lp2, true);
      }
    }
  }

  /** s' is s with x inserted at position k. */
  ghost predicate Inserted(s: seq<XpaCmd>, k: nat, x: XpaCmd?, s': seq<XpaCmd>) {
    k <= |s| && x != null && s' == s[..k] + [x] + s[k..]
  }

  /** Inserting before the first name that the new name comes before keeps the list sorted. */
  lemma InsertSorted(cmds: seq<XpaCmd>, k: nat, x: XpaCmd)
    requires Sorted(cmds) && k <= |cmds| && forall j :: 0 <= j < |cmds| ==> cmds[j].stamp < x.stamp
    requires forall j :: 0 <= j < k ==> !Before(x.name, cmds[j].name)
    requires k < |cmds| ==> Before(x.name, cmds[k].name)
    ensures Sorted(cmds[..k] + [x] + cmds[k..])
  {
    forall j | 0 <= j < k
      ensures InOrder(cmds[j], x)
    {
      BeforeTotal(x.name, cmds[j].name);
    }
    forall j | k <= j < |cmds|
      ensures InOrder(x, cmds[j])
    {
      if k < j {
        BeforeTransitive(x.name, cmds[k].name, cmds[j].name);
      }
    }
  }

  /** XPACmdParseNames. */
  method ParseName(words: Tokens, lbuf: string) returns (buf: string, ntokens: nat)
    requires InTable(lbuf)
    modifies words`lastd
    ensures (buf, ntokens) == ParseNames(lbuf, words.dtable, 0, "", 0)
  {
    ghost var name, k := MakesAll(lbuf, words.dtable);
    buf, ntokens := JoinWords(words, lbuf, words.dtable, name, k);
  }

  /** Its loop. */
  method JoinWords(words: Tokens, lbuf: string, ghost d: Table, ghost name: string, ghost k: nat)
    returns (buf: string, ntokens: nat)
    requires InTable(lbuf) && words.dtable == d && Makes(lbuf, d, 0, "", 0, name, k)
    modifies words`lastd
    ensures buf == name && ntokens == k
  {
    buf, ntokens := "", 0;
    var ok, tbuf, lp := TokenAt(words, lbuf, 0, d);
    ghost var lp0 := 0;
    while ok
      invariant lp0 <= lp <= |lbuf| && (ok ==> lp0 < lp) && Makes(lbuf, d, lp0, buf, ntokens, name, k)
      invariant ok ==> HasWord(lbuf, d, lp0, tbuf, lp)
      invariant !ok ==> HasNoWord(lbuf, d, lp0)
      decreases |lbuf| - lp, ok
    {
      MakesNext(lbuf, d, lp0, buf, ntokens, tbuf, lp, name, k);
      if buf != "" {
        buf := buf + " ";
      }
      buf := buf + tbuf;
      ntokens := ntokens + 1;
      lp0 := lp;
      ok, tbuf, lp := TokenAt(words, lbuf, lp, d);
    }
    MakesLast(lbuf, d, lp0, buf, ntokens, name, k);
  }

  /** A call of `word`. */
  method TokenAt(words: Tokens, lbuf: string, lp: nat, ghost d: Table) returns (ok: bool, tbuf: string, lp': nat)
    requires InTable(lbuf) && lp <= |lbuf| && words.dtable == d
    modifies words`lastd
    ensures lp <= lp' <= |lbuf| && (ok ==> lp < lp' && HasWord(lbuf, d, lp, tbuf, lp'))
    ensures !ok ==> HasNoWord(lbuf, d, lp)
  {
    ok, tbuf, lp' := words.Word(lbuf, lp);
  }

  lemma MakesAll(s: string, d: Table) returns (name: string, k: nat)
    ensures Makes(s, d, 0, "", 0, name, k) && (name, k) == ParseNames(s, d, 0, "", 0)
  {
    name, k := ParseNames(s, d, 0, "", 0).0, ParseNames(s, d, 0, "", 0).1;
  }
}
