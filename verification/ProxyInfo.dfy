/** The proxy information that a name server passes to a client, printed by AddProxyReq
    (libxpa/xpans.c) and read back by XPAClientConnect (libxpa/client.c). */
module ProxyInfo {
  import opened Common
  import opened Tokenizer
  import opened Keyword
  import opened Parameters
  import IntOption

  const SZ_LINE := 4096
  const DELIMITERS := "(),"

  /** A socket number in decimal, as printf writes it. */
  function Decimal(n: int): string { if n < 0 then "-" + IntOption.Numeral(-n, 10) else IntOption.Numeral(n, 10) }

  function Fields(xclass: string, name: string, meth: string, omethod: string): string {
    xclass + ("," + (name + ("," + (meth + ("," + omethod)))))
  }

  function SocketItem(sock: int): Item { Item("nsproxy", Decimal(sock), false) }

  function FieldsItem(fields: string): Item { Item("ns", fields, true) }

  const FORK_ITEM := Item("dofork", "true", false)

  /** The text that AddProxyReq prints. */
  function Printed(sock: int, xclass: string, name: string, meth: string, omethod: string): string {
    "nsproxy=" + Decimal(sock) + ",ns=(" + Fields(xclass, name, meth, omethod) + "),dofork=true"
  }

  lemma PrintedIsText(sock: int, xclass: string, name: string, meth: string, omethod: string)
    ensures Printed(sock, xclass, name, meth, omethod)
         == Text([SocketItem(sock), FieldsItem(Fields(xclass, name, meth, omethod)), FORK_ITEM])
  {
    var fields := Fields(xclass, name, meth, omethod);
    var fork := [FORK_ITEM];
    var rest := [FieldsItem(fields)] + fork;
    assert After(fork) == "," + (Written(FORK_ITEM) + After([])) == ",dofork=true";
    assert rest[1..] == fork && After(rest) == "," + (Written(FieldsItem(fields)) + ",dofork=true");
    assert ([SocketItem(sock)] + rest)[1..] == rest;
    assert [SocketItem(sock), FieldsItem(fields), FORK_ITEM] == [SocketItem(sock)] + rest;
    Glue(Decimal(sock), fields);
  }

  lemma Glue(d: string, f: string)
    ensures "nsproxy=" + d + ",ns=(" + f + "),dofork=true"
         == ("nsproxy" + ("=" + d)) + ("," + (("ns" + ("=" + ("(" + f + ")"))) + ",dofork=true"))
  {}

  predicate Numeric(s: string) { forall k :: 0 <= k < |s| ==> s[k] == '-' || '0' <= s[k] <= '9' }

  lemma {:induction false} DecimalDigits(n: nat)
    ensures Numeric(IntOption.Numeral(n, 10)) && (n > 0 ==> IntOption.Numeral(n, 10)[0] != '0')
  {
    if n >= 10 {
      IntOption.DivSmaller(n, 10);
      DecimalDigits(n / 10);
    }
  }

  lemma DecimalNumeric(n: int)
    ensures Numeric(Decimal(n)) && Decimal(n) != ""
  {
    DecimalDigits(if n < 0 then -n else n);
  }

  lemma NumericReadable(key: string, value: string)
    requires IsKey(key) && Numeric(value)
    ensures Readable(Item(key, value, false))
  {}

  /** The nsproxy parameter is the socket number. */
  lemma SocketReads(sock: int, xclass: string, name: string, meth: string, omethod: string)
    ensures Extracts(Printed(sock, xclass, name, meth, omethod), "nsproxy", Decimal(sock),
                     Text([FieldsItem(Fields(xclass, name, meth, omethod)), FORK_ITEM]))
  {
    var rest := [FieldsItem(Fields(xclass, name, meth, omethod)), FORK_ITEM];
    PrintedIsText(sock, xclass, name, meth, omethod);
    DecimalNumeric(sock);
    KeysAreKeys();
    NumericReadable("nsproxy", Decimal(sock));
    assert [] + [SocketItem(sock)] + rest == [SocketItem(sock)] + rest && [] + rest == rest;
    ExtractsItem([], SocketItem(sock), rest);
  }

  lemma KeysAreKeys()
    ensures IsKey("nsproxy") && IsKey("ns")
  {}

  /** The ns parameter is the list of fields, and the other parameters are left. */
  lemma FieldsRead(sock: int, xclass: string, name: string, meth: string, omethod: string)
    requires ')' !in Fields(xclass, name, meth, omethod)
    ensures Extracts(Printed(sock, xclass, name, meth, omethod), "ns", Fields(xclass, name, meth, omethod),
                     Text([SocketItem(sock), FORK_ITEM]))
  {
    var i := FieldsItem(Fields(xclass, name, meth, omethod));
    PrintedIsText(sock, xclass, name, meth, omethod);
    DecimalNumeric(sock);
    KeysAreKeys();
    NumericReadable("nsproxy", Decimal(sock));
    assert [SocketItem(sock)] + [i] + [FORK_ITEM] == [SocketItem(sock), i, FORK_ITEM];
    assert [SocketItem(sock)] + [FORK_ITEM] == [SocketItem(sock), FORK_ITEM];
    ExtractsItem([SocketItem(sock)], i, [FORK_ITEM]);
  }

  /** The base that strtol chooses when it is asked to: by the prefix. */
  function AutoBase(s: string): nat {
    var u := s[IntOption.SplitSign(s).offset..];
    if u == "" || u[0] != '0' then 10 else if |u| > 1 && SameLetter(u[1], 'X') then 16 else 8
  }

  /** strtol makes the printed socket number a number again. */
  lemma SocketNumber(sock: int)
    requires IntOption.LONG_MIN <= sock <= IntOption.LONG_MAX
    ensures IntOption.Strtol(Decimal(sock), AutoBase(Decimal(sock))) == IntOption.Conversion(sock, |Decimal(sock)|)
  {
    var n := if sock < 0 then -sock else sock;
    var sign := if sock < 0 then "-" else "";
    var base := if sock == 0 then 8 else 10;
    var num := IntOption.Numeral(n, 10);
    assert num == IntOption.Numeral(n, base);
    assert sign + num == Decimal(sock);
    DecimalDigits(n);
    IntOption.SignOnly(sign, num);
    IntOption.NumeralValue(n, base);
    IntOption.InnerReads(sign, num, base);
  }

  // ---- Reading the fields ----------------------------------------------------------------

  /** A field that can be read back: not empty, without delimiters, blanks and leading quotes. */
  predicate Field(s: string) {
    InTable(s) && s != "" && !IsQuote(s[0]) && forall k :: 0 <= k < |s| ==> !IsSpace(s[k]) && s[k] !in DELIMITERS
  }

  lemma FieldSeparates(d: Table, s: string)
    requires Declares(d, DELIMITERS) && Field(s)
    ensures forall k :: 0 <= k < |s| ==> !Separates(d, s[k])
    ensures Separates(d, ',')
  {}

  /** The word at i is the field that stands there, and the next one starts after its comma. */
  lemma FieldReads(s: string, d: Table, i: nat, token: string, rest: string)
    requires Declares(d, DELIMITERS) && Field(token) && i <= |s| && s[i..] == token + ("," + rest)
    ensures NextWord(s, d, i) == Found(token, i + |token| + 1, ',')
    ensures i + |token| + 1 <= |s| && s[i + |token| + 1..] == rest
  {
    FieldSeparates(d, token);
    assert s == s[..i] + token + ("," + rest);
    WordReads(s[..i], token, "," + rest, d);
    assert s[i + |token| + 1..] == s[i..][|token| + 1..];
  }

  /** The last field is the original method. */
  lemma LastFieldReads(d: Table, xclass: string, name: string, meth: string, omethod: string)
    requires Declares(d, DELIMITERS) && Field(omethod)
    ensures var s := Fields(xclass, name, meth, omethod);
            NextWord(s, d, |xclass| + |name| + |meth| + 3) == Found(omethod, |s|, '\0')
  {
    var s := Fields(xclass, name, meth, omethod);
    var pre := xclass + ("," + (name + ("," + (meth + ","))));
    FieldSeparates(d, omethod);
    WordReads(pre, omethod, "", d);
    assert s == pre + omethod + "";
  }

  /** A call of word for a field. */
  method ReadField(tokens: Tokens, lbuf: string, lp: nat, ghost token: string, ghost rest: string)
    returns (tbuf: string, lp': nat)
    requires InTable(lbuf) && Declares(tokens.dtable, DELIMITERS) && Field(token)
    requires lp <= |lbuf| && lbuf[lp..] == token + ("," + rest)
    modifies tokens`lastd
    ensures tbuf == token && lp' <= |lbuf| && lbuf[lp'..] == rest
  {
    FieldReads(lbuf, tokens.dtable, lp, token, rest);
    var ok;
    ok, tbuf, lp' := tokens.Word(lbuf, lp);
  }

  /** The proxy part of XPAClientConnect on the text that a name server has printed: the class, name
      and method come back, and the delimiter tables are as before. */
  method ReadProxy(tokens: Tokens, xmode: array<char>, ghost sock: int, ghost cls: string, ghost nam: string,
                   ghost met: string, ghost omethod: string)
    returns (found: bool, xclass: string, name: string, meth: string)
    requires Holds(xmode[..], Printed(sock, cls, nam, met, omethod))
    requires Field(cls) && Field(nam) && Field(met) && Field(omethod) && |Fields(cls, nam, met, omethod)| < SZ_LINE
    requires |tokens.dtables| < MAXDTABLES
    modifies tokens, xmode
    ensures found && xclass == cls && name == nam && meth == met
    ensures tokens.dtable == old(tokens.dtable) && tokens.dtables == old(tokens.dtables)
  {
    var lbuf := GetNs(xmode, sock, cls, nam, met, omethod);
    FieldsInTable(cls, nam, met, omethod);
    if lbuf == "" {
      return false, "", "", "";
    }
    var ok := tokens.NewDTable(DELIMITERS);
    xclass, name, meth := ReadFields(tokens, lbuf, cls, nam, met, omethod);
    ok := tokens.FreeDTable();
    SameLast(tokens.dtables, tokens.dtable, old(tokens.dtables), old(tokens.dtable));
    found := true;
  }

  lemma SameLast<T>(s: seq<T>, x: T, t: seq<T>, y: T)
    requires s + [x] == t + [y]
    ensures s == t && x == y
  {
    assert (s + [x])[|s|] == x && (t + [y])[|t|] == y;
    assert s == (s + [x])[..|s|] && t == (t + [y])[..|t|];
  }

  method ReadFields(tokens: Tokens, lbuf: string, ghost cls: string, ghost nam: string, ghost met: string,
                    ghost omethod: string)
    returns (xclass: string, name: string, meth: string)
    requires lbuf == Fields(cls, nam, met, omethod) && InTable(lbuf)
    requires Field(cls) && Field(nam) && Field(met) && Declares(tokens.dtable, DELIMITERS)
    modifies tokens`lastd
    ensures xclass == cls && name == nam && meth == met
  {
    var lp := 0;
    xclass, lp := ReadField(tokens, lbuf, lp, cls, nam + ("," + (met + ("," + omethod))));
    name, lp := ReadField(tokens, lbuf, lp, nam, met + ("," + omethod));
    meth, lp := ReadField(tokens, lbuf, lp, met, omethod);
  }

  lemma FieldsInTable(xclass: string, name: string, meth: string, omethod: string)
    requires Field(xclass) && Field(name) && Field(meth) && Field(omethod)
    ensures var s := Fields(xclass, name, meth, omethod); s != "" && InTable(s) && ')' !in s
  {
    JoinInTable(meth, omethod);
    JoinInTable(name, meth + ("," + omethod));
    JoinInTable(xclass, name + ("," + (meth + ("," + omethod))));
  }

  lemma JoinInTable(s: string, t: string)
    requires InTable(s) && InTable(t) && ')' !in s && ')' !in t
    ensures InTable(s + ("," + t)) && ')' !in s + ("," + t)
  {
    var r := s + ("," + t);
    assert forall k :: 0 <= k < |r| ==> r[k] == if k < |s| then s[k] else if k == |s| then ',' else t[k - |s| - 1];
  }

  method GetNs(xmode: array<char>, ghost sock: int, ghost cls: string, ghost nam: string, ghost met: string,
               ghost omethod: string) returns (lbuf: string)
    requires Holds(xmode[..], Printed(sock, cls, nam, met, omethod))
    requires Field(cls) && Field(nam) && Field(met) && Field(omethod) && |Fields(cls, nam, met, omethod)| < SZ_LINE
    modifies xmode
    ensures lbuf == Fields(cls, nam, met, omethod) && Holds(xmode[..], Text([SocketItem(sock), FORK_ITEM]))
  {
    ghost var text := Printed(sock, cls, nam, met, omethod);
    FieldsInTable(cls, nam, met, omethod);
    FieldsRead(sock, cls, nam, met, omethod);
    ExtractsMeans(text, "ns", Fields(cls, nam, met, omethod), Text([SocketItem(sock), FORK_ITEM]));
    var len;
    len, lbuf := KeywordOf(xmode, "ns", SZ_LINE, text);
  }
}
