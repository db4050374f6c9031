/** The tokenizer `word` and its delimiter tables (libxpa/word.c). */
module Tokenizer {
  import opened Common

  const MAXDELIM := 256
  const MAXDTABLES := 1024

  /** A C string of characters that index the table: a signed char from 128 on is a negative index. */
  predicate InTable(s: string) { forall k :: 0 <= k < |s| ==> 0 < s[k] as int < 128 }

  /** A delimiter table: how often each character has been declared a delimiter. */
  type Table = t: seq<nat> | |t| == MAXDELIM witness seq(MAXDELIM, _ => 0)

  function NoDelimiters(): Table { seq(MAXDELIM, _ => 0) }

  const NO_DELIMITERS: Table := NoDelimiters()

  predicate Delimits(d: Table, c: char) { c as int < MAXDELIM && d[c as int] > 0 }

  predicate Separates(d: Table, c: char) { IsSpace(c) || Delimits(d, c) }

  predicate IsQuote(c: char) { c == '"' || c == '\'' }

  datatype WordResult = NoWord(ptr: nat) | Found(token: string, ptr: nat, last: char)

  /** The first position at or after i that does not separate words, or |s|. */
  function SkipSeparators(s: string, d: Table, i: nat): (k: nat)
    requires i <= |s|
    ensures i <= k <= |s| && (k < |s| ==> !Separates(d, s[k]))
    ensures forall j :: i <= j < k ==> Separates(d, s[j])
    decreases |s| - i
  {
    if i < |s| && Separates(d, s[i]) then SkipSeparators(s, d, i + 1) else i
  }

  function WordEnd(s: string, d: Table, i: nat): (k: nat)
    requires i <= |s|
    ensures i <= k <= |s| && (k < |s| ==> Separates(d, s[k]))
    ensures forall j :: i <= j < k ==> !Separates(d, s[j])
    decreases |s| - i
  {
    if i < |s| && !Separates(d, s[i]) then WordEnd(s, d, i + 1) else i
  }

  /** The closing quote: not preceded by a backslash. */
  function QuoteEnd(s: string, q: char, i: nat): (k: nat)
    requires 0 < i <= |s|
    ensures i <= k <= |s|
    decreases |s| - i
  {
    if i < |s| && !(s[i] == q && s[i - 1] != '\\') then QuoteEnd(s, q, i + 1) else i
  }

  function Past(s: string, k: nat): nat { if k < |s| then k + 1 else k }

  /** What `word` returns for the string s from position i, under the delimiter table d. */
  function NextWord(s: string, d: Table, i: nat): (r: WordResult)
    requires i <= |s|
    ensures r.ptr <= |s| && (r.Found? ==> i < r.ptr)
  {
    if i == |s| then NoWord(i)
    else
      var b := SkipSeparators(s, d, i);
      if b == |s| && Delimits(d, '\0') then NoWord(b)
      else if IsQuote(At(s, b)) then
        var e := QuoteEnd(s, s[b], b + 1);
        Found(s[b + 1..e], Past(s, e), s[b])
      else
        var e := WordEnd(s, d, b);
        Found(s[b..e], Past(s, e), At(s, e))
  }

  /** The tokenizer's globals: the current table and the stack of saved ones. */
  class Tokens {
    var dtable: Table
    var dtables: seq<Table>
    var lastd: char

    constructor ()
      ensures dtable == NO_DELIMITERS && dtables == []
    {
      dtable, dtables, lastd := NO_DELIMITERS, [], '\0';
    }

    /** word: `ok` is its result, `tbuf` the token and `lptr'` the new position. */
    method Word(lbuf: string, lptr: nat) returns (ok: bool, tbuf: string, lptr': nat)
      requires InTable(lbuf) && lptr <= |lbuf|
      modifies this`lastd
      ensures match NextWord(lbuf, dtable, lptr) {
          case NoWord(ptr) => !ok && tbuf == "" && lptr' == ptr && lastd == '\0'
          case Found(token, ptr, last) => ok && tbuf == token && lptr' == ptr && lastd == last
        }
    {
      lastd := '\0';
      var ip := lptr;
      if At(lbuf, ip) == '\0' {
        return false, "", ip;
      }
      while IsSpace(At(lbuf, ip)) || Delimits(dtable, At(lbuf, ip))
        invariant lptr <= ip <= |lbuf| && SkipSeparators(lbuf, dtable, lptr) == SkipSeparators(lbuf, dtable, ip)
        decreases |lbuf| - ip
      {
        if At(lbuf, ip) == '\0' {
          return false, "", ip;
        }
        ip := ip + 1;
      }
      if IsQuote(At(lbuf, ip)) {
        var quotes := lbuf[ip];
        lastd := quotes;
        tbuf, ip := ReadQuoted(lbuf, ip + 1, quotes);
      } else {
        tbuf, ip := ReadPlain(lbuf, dtable, ip);
        lastd := At(lbuf, ip);
      }
      return true, tbuf, Past(lbuf, ip);
    }

    /** newdtable: save the current table and start one with the characters of s. */
    method NewDTable(s: string) returns (ok: bool)
      requires InTable(s)
      modifies this`dtable, this`dtables
      ensures ok == (|old(dtables)| < MAXDTABLES)
      ensures ok ==> dtables == old(dtables) + [old(dtable)] && Declares(dtable, s)
      ensures !ok ==> dtables == old(dtables) && dtable == old(dtable)
    {
      if |dtables| >= MAXDTABLES {
        return false;
      }
      dtables := dtables + [dtable];
      dtable := NO_DELIMITERS;
      for k := 0 to |s|
        invariant dtables == old(dtables) + [old(dtable)] && Declares(dtable, s[..k])
      {
        dtable := dtable[s[k] as int := 1];
        assert s[..k + 1] == s[..k] + [s[k]];
      }
      assert s[..|s|] == s;
      return true;
    }

    /** freedtable: go back to the table saved last. */
    method FreeDTable() returns (ok: bool)
      modifies this`dtable, this`dtables
      ensures ok == (old(dtables) != [])
      ensures ok ==> dtables + [dtable] == old(dtables)
      ensures !ok ==> dtables == old(dtables) && dtable == old(dtable)
    {
      if |dtables| <= 0 {
        return false;
      }
      dtable, dtables := dtables[|dtables| - 1], dtables[..|dtables| - 1];
      return true;
    }
  }

  /** The delimiters are exactly the characters of s. */
  ghost predicate Declares(d: Table, s: string) { forall c: char :: Delimits(d, c) <==> c as int < MAXDELIM && c in s }

  /** A plain token is read up to the separator that follows it, which is consumed. */
  lemma WordReads(pre: string, token: string, rest: string, d: Table)
    requires token != "" && !IsQuote(token[0]) && forall k :: 0 <= k < |token| ==> !Separates(d, token[k])
    requires rest != "" ==> Separates(d, rest[0])
    ensures var s, e := pre + token + rest, |pre| + |token|;
            NextWord(s, d, |pre|) == Found(token, if rest == "" then e else e + 1, if rest == "" then '\0' else rest[0])
  {
    var s, e := pre + token + rest, |pre| + |token|;
    assert s[|pre|] == token[0];
    assert rest != "" ==> s[e] == rest[0];
    assert forall k :: |pre| <= k < e ==> s[k] == token[k - |pre|];
    assert WordEnd(s, d, |pre|) == e;
    assert s[|pre|..e] == token;
  }

  /** A quoted token is read up to the first quote of its kind that is not behind a backslash, whatever it
      contains, and the quote is consumed. */
  lemma QuotedReads(pre: string, gap: string, q: char, token: string, rest: string, d: Table)
    requires IsQuote(q) && !Separates(d, q) && forall k :: 0 <= k < |gap| ==> Separates(d, gap[k])
    requires forall k :: 0 <= k < |token| && token[k] == q ==> k > 0 && token[k - 1] == '\\'
    requires token != "" ==> token[|token| - 1] != '\\'
    ensures var s := pre + gap + [q] + token + [q] + rest;
            NextWord(s, d, |pre|) == Found(token, |pre| + |gap| + |token| + 2, q)
  {
    var s, b := pre + gap + [q] + token + [q] + rest, |pre| + |gap|;
    var e := b + 1 + |token|;
    assert forall k :: |pre| <= k < b ==> s[k] == gap[k - |pre|];
    assert s[b] == q && s[e] == q && s[b + 1..e] == token;
    assert forall k :: b < k < e ==> s[k] == token[k - b - 1];
    assert SkipSeparators(s, d, |pre|) == b;
    QuoteEnds(s, q, b + 1, e);
  }

  lemma {:induction false} QuoteEnds(s: string, q: char, i: nat, e: nat)
    requires 0 < i <= e < |s| && s[e] == q && s[e - 1] != '\\'
    requires forall k :: i <= k < e ==> !(s[k] == q && s[k - 1] != '\\')
    ensures QuoteEnd(s, q, i) == e
    decreases e - i
  {
    if i < e {
      QuoteEnds(s, q, i + 1, e);
    }
  }

  /** The loop that grabs a token up to the closing quote. */
  method ReadQuoted(lbuf: string, b: nat, quotes: char) returns (tbuf: string, ip: nat)
    requires InTable(lbuf) && 0 < b <= |lbuf|
    ensures ip == QuoteEnd(lbuf, quotes, b) && tbuf == lbuf[b..ip]
  {
    tbuf, ip := "", b;
    while At(lbuf, ip) != '\0'
      invariant b <= ip <= |lbuf| && tbuf == lbuf[b..ip]
      invariant QuoteEnd(lbuf, quotes, b) == QuoteEnd(lbuf, quotes, ip)
      decreases |lbuf| - ip
    {
      if lbuf[ip] == quotes && lbuf[ip - 1] != '\\' {
        break;
      }
      tbuf := tbuf + [lbuf[ip]];
      ip := ip + 1;
    }
  }

  /** The loop that grabs a token up to the next separator. */
  method ReadPlain(lbuf: string, dtable: Table, b: nat) returns (tbuf: string, ip: nat)
    requires InTable(lbuf) && b <= |lbuf|
    ensures ip == WordEnd(lbuf, dtable, b) && tbuf == lbuf[b..ip]
  {
    tbuf, ip := "", b;
    while At(lbuf, ip) != '\0' && !IsSpace(At(lbuf, ip)) && !Delimits(dtable, At(lbuf, ip))
      invariant b <= ip <= |lbuf| && tbuf == lbuf[b..ip]
      invariant WordEnd(lbuf, dtable, b) == WordEnd(lbuf, dtable, ip)
      decreases |lbuf| - ip
    {
      tbuf := tbuf + [lbuf[ip]];
      ip := ip + 1;
    }
  }
}
