/** The name server's registry: connections, their entries, and lookup (libxpa/xpans.c). */
module Registry {
  import opened Common
  import ProxyInfo
  import opened Keyword
  import opened Tokenizer

  datatype Entry = Entry(xclass: string, name: string, meth: string, kind: string, user: string, info: string)

  /** A connection and the entries it has registered, oldest first. */
  datatype Req = Req(sock: int, ip: int, port: int, entries: seq<Entry>)

  // ---- The registry as a value -----------------------------------------------------------

  /** Some connection has the entry. */
  ghost predicate Registered(reqs: seq<Req>, e: Entry) { exists i :: 0 <= i < |reqs| && e in reqs[i].entries }

  ghost predicate NoRepeats(entries: seq<Entry>) {
    forall k, l :: 0 <= k < l < |entries| ==> entries[k] != entries[l]
  }

  /** No two entries agree on all six fields. */
  ghost predicate Unique(reqs: seq<Req>) {
    && (forall i :: 0 <= i < |reqs| ==> NoRepeats(reqs[i].entries))
    && (forall i, j, e :: 0 <= i < j < |reqs| && e in reqs[i].entries ==> e !in reqs[j].entries)
  }

  /** Open sockets have different numbers. */
  ghost predicate DistinctSockets(reqs: seq<Req>) {
    forall i, j :: 0 <= i < j < |reqs| ==> reqs[i].sock != reqs[j].sock
  }

  /** The position of a connection, or |reqs|. */
  function Find(reqs: seq<Req>, sock: int): (c: nat)
    ensures c <= |reqs| && (c < |reqs| ==> reqs[c].sock == sock)
    ensures forall i :: 0 <= i < c ==> reqs[i].sock != sock
  {
    if reqs == [] || reqs[0].sock == sock then 0 else 1 + Find(reqs[1..], sock)
  }

  function WithEntries(reqs: seq<Req>, c: nat, entries: seq<Entry>): seq<Req>
    requires c < |reqs|
  {
    reqs[c := reqs[c].(entries := entries)]
  }

  /** Adding an entry that is not there yet. */
  ghost function Added(reqs: seq<Req>, c: nat, e: Entry): seq<Req>
    requires c < |reqs|
  {
    if Registered(reqs, e) then reqs else WithEntries(reqs, c, reqs[c].entries + [e])
  }

  /** Which methods a deletion names: none or empty is all, and @ is every proxy. */
  predicate Named(meth: string, e: Entry) {
    meth == "" || (meth == "@" && e.meth != "" && e.meth[0] == '@') || e.meth == meth
  }

  function Remaining(entries: seq<Entry>, meth: string): (r: seq<Entry>)
    ensures forall e :: e in r <==> e in entries && !Named(meth, e)
  {
    if entries == [] then []
    else (if Named(meth, entries[0]) then [] else [entries[0]]) + Remaining(entries[1..], meth)
  }

  function WithoutEntry(entries: seq<Entry>, k: nat): (r: seq<Entry>)
    requires k < |entries|
    ensures |r| == |entries| - 1
  {
    entries[..k] + entries[k + 1..]
  }

  function Removed(reqs: seq<Req>, c: nat, meth: string): seq<Req>
    requires c < |reqs|
  {
    WithEntries(reqs, c, Remaining(reqs[c].entries, meth))
  }

  function Closed(reqs: seq<Req>, c: nat): seq<Req>
    requires c < |reqs|
  {
    reqs[..c] + reqs[c + 1..]
  }

  lemma AddedUnique(reqs: seq<Req>, c: nat, e: Entry)
    requires Unique(reqs) && c < |reqs|
    ensures Unique(Added(reqs, c, e)) && Registered(Added(reqs, c, e), e)
  {
    if !Registered(reqs, e) {
      var reqs' := Added(reqs, c, e);
      assert forall x :: x in reqs'[c].entries <==> x in reqs[c].entries || x == e;
      assert e in reqs'[c].entries;
    }
  }

  /** Entries stay different and in order when some are taken out. */
  lemma {:induction false} RemainingNoRepeats(entries: seq<Entry>, meth: string)
    requires NoRepeats(entries)
    ensures NoRepeats(Remaining(entries, meth))
  {
    if entries != [] {
      assert entries[0] !in entries[1..];
      RemainingNoRepeats(entries[1..], meth);
      ConsNoRepeats(entries[0], Remaining(entries[1..], meth));
    }
  }

  lemma ConsNoRepeats(x: Entry, s: seq<Entry>)
    requires NoRepeats(s) && x !in s
    ensures NoRepeats([x] + s)
  {
    assert forall l :: 0 < l <= |s| ==> ([x] + s)[l] == s[l - 1];
  }

  lemma {:induction false} RemainingWithout(entries: seq<Entry>, e: Entry, meth: string)
    requires Named(meth, e)
    ensures Remaining(entries + [e], meth) == Remaining(entries, meth)
  {
    if entries == [] {
      assert Remaining([e][1..], meth) == [];
    } else {
      RemainingWithout(entries[1..], e, meth);
      assert (entries + [e])[1..] == entries[1..] + [e];
    }
  }

  lemma RemovedUnique(reqs: seq<Req>, c: nat, meth: string)
    requires Unique(reqs) && c < |reqs|
    ensures Unique(Removed(reqs, c, meth))
  {
    RemainingNoRepeats(reqs[c].entries, meth);
  }

  lemma ClosedUnique(reqs: seq<Req>, c: nat)
    requires Unique(reqs) && c < |reqs|
    ensures Unique(Closed(reqs, c))
  {
    assert forall i :: 0 <= i < |reqs| - 1 ==> Closed(reqs, c)[i] == reqs[if i < c then i else i + 1];
  }

  // ---- Requests --------------------------------------------------------------------------

  const SZ_LINE := 4096
  const DEFAULT_INFO := "NONE"

  function Truncated(s: string): string { if |s| < SZ_LINE then s else s[..SZ_LINE - 1] }

  /** What does not change: the method that a firewall correction makes of the one given, for a
      connection's address; which methods are internet methods; and whether proxies are accepted. */
  datatype Config = Config(firewall: (int, string) -> string, inet: string -> bool, proxies: bool)

  /** The requests of a connection, with the words of their argument after class:name is split, and
      the end of the connection. */
  datatype Request = Add(words: seq<string>) | AddProxy(words: seq<string>)
                   | Del(words: seq<string>) | DelProxy(words: seq<string>)
                   | Disconnect

  /** The method under which a connection's entry is kept: a corrected method is followed by the
      original. */
  function Kept(cfg: Config, ip: int, meth: string): string {
    var fixed := cfg.firewall(ip, meth);
    if fixed == meth then meth else Truncated(fixed + "," + meth)
  }

  function KeptProxy(cfg: Config, ip: int, meth: string): string {
    var fixed := cfg.firewall(ip, meth);
    if fixed == meth then Truncated("@" + meth) else Truncated("@" + fixed + "," + meth)
  }

  /** The method that delproxy looks for: without the @ if there was no correction. */
  function SoughtProxy(cfg: Config, ip: int, meth: string): string {
    var fixed := cfg.firewall(ip, meth);
    if fixed == meth then meth else Truncated("@" + fixed + "," + meth)
  }

  function PlainEntry(cfg: Config, ip: int, w: seq<string>): Entry
    requires |w| >= 5
  {
    Entry(w[1], w[2], Kept(cfg, ip, w[0]), w[3], w[4], DEFAULT_INFO)
  }

  function ProxyEntry(cfg: Config, r: Req, w: seq<string>): Entry
    requires |w| >= 5
  {
    var info := ProxyInfo.Printed(r.sock, w[1], w[2], cfg.firewall(r.ip, w[0]), w[0]);
    Entry(w[1], w[2], KeptProxy(cfg, r.ip, w[0]), w[3], w[4], Truncated(info))
  }

  /** The registry after a request of connection c. */
  ghost function After(cfg: Config, reqs: seq<Req>, c: nat, q: Request): seq<Req>
    requires c < |reqs|
  {
    match q
    case Add(w) => if |w| >= 5 then Added(reqs, c, PlainEntry(cfg, reqs[c].ip, w)) else reqs
    case AddProxy(w) =>
      if cfg.proxies && |w| >= 5 && cfg.inet(w[0]) then Added(reqs, c, ProxyEntry(cfg, reqs[c], w)) else reqs
    case Del(w) => if |w| >= 1 then Removed(reqs, c, Kept(cfg, reqs[c].ip, w[0])) else reqs
    case DelProxy(w) =>
      if cfg.proxies && |w| >= 1 then Removed(reqs, c, SoughtProxy(cfg, reqs[c].ip, w[0])) else reqs
    case Disconnect => Closed(reqs, c)
  }

  lemma AfterUnique(cfg: Config, reqs: seq<Req>, c: nat, q: Request)
    requires Unique(reqs) && DistinctSockets(reqs) && c < |reqs|
    ensures Unique(After(cfg, reqs, c, q)) && DistinctSockets(After(cfg, reqs, c, q))
  {
    SocketsStay(cfg, reqs, c, q);
    match q
    case Add(w) => if |w| >= 5 { AddedUnique(reqs, c, PlainEntry(cfg, reqs[c].ip, w)); }
    case AddProxy(w) => if |w| >= 5 { AddedUnique(reqs, c, ProxyEntry(cfg, reqs[c], w)); }
    case Del(w) => if |w| >= 1 { RemovedUnique(reqs, c, Kept(cfg, reqs[c].ip, w[0])); }
    case DelProxy(w) => if |w| >= 1 { RemovedUnique(reqs, c, SoughtProxy(cfg, reqs[c].ip, w[0])); }
    case Disconnect => ClosedUnique(reqs, c);
  }

  lemma SocketsStay(cfg: Config, reqs: seq<Req>, c: nat, q: Request)
    requires DistinctSockets(reqs) && c < |reqs|
    ensures DistinctSockets(After(cfg, reqs, c, q))
  {}

  // ---- Runs ------------------------------------------------------------------------------

  /** A new connection on a socket that is not open, or a request on an open one. */
  datatype Event = Connect(sock: int, ip: int, port: int) | Ask(sock: int, request: Request)

  ghost function Step(cfg: Config, reqs: seq<Req>, ev: Event): seq<Req> {
    var c := Find(reqs, ev.sock);
    match ev
    case Connect(sock, ip, port) => if c == |reqs| then reqs + [Req(sock, ip, port, [])] else reqs
    case Ask(_, q) => if c < |reqs| then After(cfg, reqs, c, q) else reqs
  }

  ghost function Run(cfg: Config, evs: seq<Event>): seq<Req> {
    if evs == [] then [] else Step(cfg, Run(cfg, evs[..|evs| - 1]), evs[|evs| - 1])
  }

  /** After every sequence of connections, requests and disconnections no two entries agree on all six
      fields, so that every entry belongs to one open connection. */
  lemma {:induction false} RunSafe(cfg: Config, evs: seq<Event>)
    ensures Unique(Run(cfg, evs)) && DistinctSockets(Run(cfg, evs))
  {
    if evs != [] {
      var reqs := Run(cfg, evs[..|evs| - 1]);
      RunSafe(cfg, evs[..|evs| - 1]);
      StepSafe(cfg, reqs, evs[|evs| - 1]);
    }
  }

  lemma StepSafe(cfg: Config, reqs: seq<Req>, ev: Event)
    requires Unique(reqs) && DistinctSockets(reqs)
    ensures Unique(Step(cfg, reqs, ev)) && DistinctSockets(Step(cfg, reqs, ev))
  {
    var c := Find(reqs, ev.sock);
    match ev
    case Connect(sock, ip, port) =>
    case Ask(_, q) => if c < |reqs| { AfterUnique(cfg, reqs, c, q); }
  }

  /** Closing a connection takes away its entries and no others. */
  lemma CloseRemoves(reqs: seq<Req>, c: nat, e: Entry)
    requires Unique(reqs) && c < |reqs|
    ensures Registered(Closed(reqs, c), e) <==> Registered(reqs, e) && e !in reqs[c].entries
  {
    var reqs' := Closed(reqs, c);
    if Registered(reqs', e) {
      var i :| 0 <= i < |reqs'| && e in reqs'[i].entries;
      assert reqs'[i] == reqs[if i < c then i else i + 1];
    }
    if Registered(reqs, e) && e !in reqs[c].entries {
      var i :| 0 <= i < |reqs| && e in reqs[i].entries;
      assert reqs'[if i < c then i else i - 1] == reqs[i];
    }
  }

  /** Deleting a method takes back its addition: it leaves what deleting it alone would have left, which
      is the entries that it does not name. */
  lemma AddThenDel(cfg: Config, reqs: seq<Req>, c: nat, w: seq<string>)
    requires c < |reqs| && |w| >= 5
    ensures After(cfg, After(cfg, reqs, c, Add(w)), c, Del(w)) == After(cfg, reqs, c, Del(w))
    ensures var reqs' := After(cfg, reqs, c, Del(w));
            && |reqs'| == |reqs|
            && (forall e :: e in reqs'[c].entries <==>
                              && e in reqs[c].entries && e.meth != Kept(cfg, reqs[c].ip, w[0])
                              && Kept(cfg, reqs[c].ip, w[0]) != ""
                              && (Kept(cfg, reqs[c].ip, w[0]) == "@" ==> At(e.meth, 0) != '@'))
            && (forall i :: 0 <= i < |reqs| && i != c ==> reqs'[i] == reqs[i])
  {
    var e := PlainEntry(cfg, reqs[c].ip, w);
    var added := Added(reqs, c, e);
    assert After(cfg, reqs, c, Add(w)) == added && added[c].ip == reqs[c].ip;
    RemainingWithout(reqs[c].entries, e, e.meth);
  }

  /** delproxy removes the entry that addproxy has just made if and only if a firewall correction put
      the @ into the method it looks for, or it is asked to remove every proxy. */
  lemma DelProxyMisses(cfg: Config, reqs: seq<Req>, c: nat, w: seq<string>)
    requires c < |reqs| && |w| >= 5 && cfg.proxies && cfg.inet(w[0]) && w[0] != "" && |w[0]| < SZ_LINE - 1
    requires !Registered(reqs, ProxyEntry(cfg, reqs[c], w))
    ensures var after := After(cfg, After(cfg, reqs, c, AddProxy(w)), c, DelProxy(w))[c].entries;
            ProxyEntry(cfg, reqs[c], w) !in after <==> cfg.firewall(reqs[c].ip, w[0]) != w[0] || w[0] == "@"
  {
    var e := ProxyEntry(cfg, reqs[c], w);
    var added := Added(reqs, c, e);
    assert added[c].entries == reqs[c].entries + [e] && added[c].ip == reqs[c].ip;
    assert e in added[c].entries;
    assert |"@" + w[0]| != |w[0]|;
  }

  /** A proxy that was added without a firewall is still there after it has been deleted. */
  lemma ProxyStays()
    ensures var cfg := Config((ip, meth) => meth, meth => true, true);
            var w, reqs := ["7f000001:28571", "DS9", "ds9", "gs", "joe"], [Req(4, 0x7f000001, 2000, [])];
            ProxyEntry(cfg, reqs[0], w) in After(cfg, After(cfg, reqs, 0, AddProxy(w)), 0, DelProxy(w))[0].entries
  {
    var cfg := Config((ip, meth) => meth, meth => true, true);
    var w, reqs := ["7f000001:28571", "DS9", "ds9", "gs", "joe"], [Req(4, 0x7f000001, 2000, [])];
    assert w[0][0] != '@';
    DelProxyMisses(cfg, reqs, 0, w);
  }

  /** An entry that one connection asks for outlives another one exactly if that one does not have the
      same entry: then the request was refused, and the entry goes with the other connection. */
  lemma LostWithOther(reqs: seq<Req>, a: nat, b: nat, e: Entry)
    requires Unique(reqs) && a < |reqs| && b < |reqs| && a != b
    ensures Registered(Closed(Added(reqs, b, e), a), e) <==> e !in reqs[a].entries
  {
    AddedUnique(reqs, b, e);
    CloseRemoves(Added(reqs, b, e), a, e);
    if !Registered(reqs, e) {
      assert e in Added(reqs, b, e)[b].entries;
    }
  }

  /** Two programs on one machine offer the same access point, and then the first one ends. */
  function TwoOffers(ip: int, w: seq<string>): seq<Event> {
    [Connect(4, ip, 2000), Connect(5, ip, 2001), Ask(4, Add(w)), Ask(5, Add(w))]
  }

  lemma RunStep(cfg: Config, evs: seq<Event>, ev: Event)
    ensures Run(cfg, evs + [ev]) == Step(cfg, Run(cfg, evs), ev)
  {
    assert (evs + [ev])[..|evs|] == evs;
  }

  lemma Connects(cfg: Config, evs: seq<Event>, reqs: seq<Req>, sock: int, ip: int, port: int)
    requires Run(cfg, evs) == reqs && Find(reqs, sock) == |reqs|
    ensures Run(cfg, evs + [Connect(sock, ip, port)]) == reqs + [Req(sock, ip, port, [])]
  {
    RunStep(cfg, evs, Connect(sock, ip, port));
  }

  lemma BothConnected(cfg: Config, ip: int)
    ensures Run(cfg, [Connect(4, ip, 2000), Connect(5, ip, 2001)]) == [Req(4, ip, 2000, []), Req(5, ip, 2001, [])]
  {
    var first, second, r4, r5 := Connect(4, ip, 2000), Connect(5, ip, 2001), Req(4, ip, 2000, []), Req(5, ip, 2001, []);
    Connects(cfg, [], [], 4, ip, 2000);
    assert [] + [first] == [first] && [] + [r4] == [r4];
    assert Find([r4], 5) == 1;
    Connects(cfg, [first], [r4], 5, ip, 2001);
    assert [first] + [second] == [first, second] && [r4] + [r5] == [r4, r5];
  }

  /** The second offer changes nothing, as the entry is there already. */
  lemma OffersMeet(cfg: Config, ip: int, w: seq<string>)
    requires |w| >= 5
    ensures Run(cfg, TwoOffers(ip, w)) == [Req(4, ip, 2000, [PlainEntry(cfg, ip, w)]), Req(5, ip, 2001, [])]
  {
    var connected := [Connect(4, ip, 2000), Connect(5, ip, 2001)];
    BothConnected(cfg, ip);
    RunStep(cfg, connected, Ask(4, Add(w)));
    RunStep(cfg, connected + [Ask(4, Add(w))], Ask(5, Add(w)));
    assert connected + [Ask(4, Add(w))] + [Ask(5, Add(w))] == TwoOffers(ip, w);
    OfferTwice(cfg, ip, w);
  }

  lemma OfferTwice(cfg: Config, ip: int, w: seq<string>)
    requires |w| >= 5
    ensures var reqs := [Req(4, ip, 2000, []), Req(5, ip, 2001, [])];
            var offered := [Req(4, ip, 2000, [PlainEntry(cfg, ip, w)]), Req(5, ip, 2001, [])];
            Step(cfg, reqs, Ask(4, Add(w))) == offered && Step(cfg, offered, Ask(5, Add(w))) == offered
  {
    var e, a, b := PlainEntry(cfg, ip, w), Req(4, ip, 2000, []), Req(5, ip, 2001, []);
    FirstOffer(a, b, e);
    assert a.(entries := [e]) == Req(4, ip, 2000, [e]);
    HasEntry([a.(entries := [e]), b], 0, e);
    FindSecond([a.(entries := [e]), b]);
  }

  lemma FirstOffer(a: Req, b: Req, e: Entry)
    requires a.entries == [] && b.entries == []
    ensures Added([a, b], 0, e) == [a.(entries := [e]), b]
  {
    assert a.entries + [e] == [e];
    assert !Registered([a, b], e);
  }

  lemma HasEntry(reqs: seq<Req>, i: nat, e: Entry)
    requires i < |reqs| && e in reqs[i].entries
    ensures Registered(reqs, e)
  {}

  lemma FindSecond(reqs: seq<Req>)
    requires |reqs| == 2 && reqs[0].sock == 4 && reqs[1].sock == 5
    ensures Find(reqs, 5) == 1
  {
    assert reqs[1..][0] == reqs[1];
  }

  /** After two connections have offered the same access point it is registered once; when the first
      one ends, the second one, still connected, has nothing in the registry. */
  lemma LostEntry(cfg: Config, ip: int, w: seq<string>)
    requires |w| >= 5
    ensures Registered(Run(cfg, TwoOffers(ip, w)), PlainEntry(cfg, ip, w))
    ensures Run(cfg, TwoOffers(ip, w) + [Ask(4, Disconnect)]) == [Req(5, ip, 2001, [])]
  {
    OffersMeet(cfg, ip, w);
    HasEntry(Run(cfg, TwoOffers(ip, w)), 0, PlainEntry(cfg, ip, w));
    RunStep(cfg, TwoOffers(ip, w), Ask(4, Disconnect));
  }

  // ---- Proxy information -----------------------------------------------------------------

  /** Nothing of the information is cut off. */
  predicate InfoFits(cfg: Config, r: Req, w: seq<string>)
    requires |w| >= 5
  {
    |ProxyInfo.Printed(r.sock, w[1], w[2], cfg.firewall(r.ip, w[0]), w[0])| < SZ_LINE
  }

  /** What a client reads from the information of an entry that addproxy made: the class and the name
      of the entry and the corrected method, without the @ and the original one. */
  method ReadStored(tokens: Tokens, xmode: array<char>, ghost cfg: Config, ghost r: Req, ghost w: seq<string>)
    returns (found: bool, xclass: string, name: string, meth: string)
    requires |w| >= 5 && InfoFits(cfg, r, w) && Holds(xmode[..], ProxyEntry(cfg, r, w).info)
    requires ProxyInfo.Field(w[1]) && ProxyInfo.Field(w[2])
    requires ProxyInfo.Field(cfg.firewall(r.ip, w[0])) && ProxyInfo.Field(w[0])
    requires |tokens.dtables| < MAXDTABLES
    modifies tokens, xmode
    ensures found && xclass == ProxyEntry(cfg, r, w).xclass && name == ProxyEntry(cfg, r, w).name
    ensures meth == cfg.firewall(r.ip, w[0])
    ensures tokens.dtable == old(tokens.dtable) && tokens.dtables == old(tokens.dtables)
  {
    var fixed := cfg.firewall(r.ip, w[0]);
    FieldsWithinPrinted(r.sock, w[1], w[2], fixed, w[0]);
    found, xclass, name, meth := ProxyInfo.ReadProxy(tokens, xmode, r.sock, w[1], w[2], fixed, w[0]);
  }

  lemma FieldsWithinPrinted(sock: int, xclass: string, name: string, meth: string, omethod: string)
    ensures |ProxyInfo.Fields(xclass, name, meth, omethod)| < |ProxyInfo.Printed(sock, xclass, name, meth, omethod)|
  {}

  const OK := "XPA$OK\n"
  const EXISTS := "XPA$EXISTS entry already exists\n"
  const MISSING := "XPA$ERROR entry does not exist\n"
  const NO_PROXIES := "XPA$ERROR: proxy requests not enabled in this xpans\n"
  const ADD_USAGE := "XPA$ERROR 'add' requires 4 args: ip:port class:name type user\n"
  const PROXY_USAGE := "XPA$ERROR 'proxy' requires 4 args: ip:port class:name type user\n"
  const PROXY_METHOD := "XPA$ERROR 'proxy' requires INET method\n"
  const DEL_USAGE := "XPA$ERROR 'del' requires 1 arg: ip:port\n"

  // ---- The server ------------------------------------------------------------------------

  class NameServer {
    const cfg: Config
    var reqs: seq<Req>

    ghost predicate Valid()
      reads this
    {
      Unique(reqs) && DistinctSockets(reqs)
    }

    constructor (cfg: Config)
      ensures Valid() && reqs == [] && this.cfg == cfg
    {
      this.cfg, reqs := cfg, [];
    }

    /** NewReq, for a socket that is not open. */
    method NewReq(sock: int, ip: int, port: int)
      requires Valid() && Find(reqs, sock) == |reqs|
      modifies this
      ensures Valid() && reqs == Step(cfg, old(reqs), Connect(sock, ip, port))
    {
      reqs := reqs + [Req(sock, ip, port, [])];
    }

    /** The search of NewEntry. */
    method IsRegistered(e: Entry) returns (found: bool)
      ensures found == Registered(reqs, e)
    {
      for i := 0 to |reqs|
        invariant forall j :: 0 <= j < i ==> e !in reqs[j].entries
      {
        var entries := reqs[i].entries;
        for k := 0 to |entries|
          invariant forall l :: 0 <= l < k ==> entries[l] != e
        {
          if entries[k] == e {
            return true;
          }
        }
      }
      return false;
    }

    /** NewEntry: 0 if the entry was added, 1 if it was there. */
    method NewEntry(c: nat, e: Entry) returns (got: int)
      requires c < |reqs|
      modifies this
      ensures reqs == Added(old(reqs), c, e) && got == if Registered(old(reqs), e) then 1 else 0
    {
      var found := IsRegistered(e);
      if found {
        return 1;
      }
      reqs := WithEntries(reqs, c, reqs[c].entries + [e]);
      return 0;
    }

    /** FreeEntry. */
    method FreeEntry(c: nat, k: nat)
      requires c < |reqs| && k < |reqs[c].entries|
      modifies this
      ensures reqs == WithEntries(old(reqs), c, WithoutEntry(old(reqs)[c].entries, k))
    {
      reqs := WithEntries(reqs, c, WithoutEntry(reqs[c].entries, k));
    }

    /** DelEntry: 0 if something was removed. */
    method DelEntry(c: nat, meth: string) returns (got: int)
      requires c < |reqs|
      modifies this
      ensures reqs == Removed(old(reqs), c, meth)
      ensures got == if SomeNamed(old(reqs)[c].entries, meth) then 0 else -1
    {
      ghost var before := reqs;
      ghost var all, now := reqs[c].entries, reqs[c].entries;
      var k := 0;
      got := -1;
      DeletingFirst(all, meth);
      while k < |reqs[c].entries|
        invariant c < |reqs| && reqs == WithEntries(before, c, now) && reqs[c].entries == now
        invariant k <= |now| && Deleting(all, now, k, meth, got)
        decreases |now| - k
      {
        if Named(meth, reqs[c].entries[k]) {
          FreeEntry(c, k);
          DeletingDrops(all, now, k, meth, got);
          EntriesTwice(before, c, now, WithoutEntry(now, k));
          now := WithoutEntry(now, k);
          got := 0;
        } else {
          DeletingKeeps(all, now, k, meth, got);
          k := k + 1;
        }
      }
      DeletingLast(all, now, k, meth, got);
    }

    /** The request is granted unless the same entry is there. */
    method AddReq(c: nat, words: seq<string>) returns (reply: string)
      requires c < |reqs|
      modifies this
      ensures reqs == After(cfg, old(reqs), c, Add(words))
      ensures |words| >= 5 ==>
                reply == if Registered(old(reqs), PlainEntry(cfg, old(reqs)[c].ip, words)) then EXISTS else OK
    {
      if |words| < 5 {
        return ADD_USAGE;
      }
      var meth := cfg.firewall(reqs[c].ip, words[0]);
      var tbuf := if words[0] == meth then meth else Truncated(meth + "," + words[0]);
      var got := NewEntry(c, Entry(words[1], words[2], tbuf, words[3], words[4], DEFAULT_INFO));
      reply := if got == 0 then OK else EXISTS;
    }

    method AddProxyReq(c: nat, words: seq<string>) returns (reply: string)
      requires c < |reqs|
      modifies this
      ensures reqs == After(cfg, old(reqs), c, AddProxy(words))
      ensures cfg.proxies && |words| >= 5 && cfg.inet(words[0]) ==>
                reply == if Registered(old(reqs), ProxyEntry(cfg, old(reqs)[c], words)) then EXISTS else OK
    {
      if !cfg.proxies {
        return NO_PROXIES;
      }
      if |words| < 5 {
        return PROXY_USAGE;
      }
      if !cfg.inet(words[0]) {
        return PROXY_METHOD;
      }
      var meth := cfg.firewall(reqs[c].ip, words[0]);
      var tbuf := if words[0] == meth then Truncated("@" + meth) else Truncated("@" + meth + "," + words[0]);
      var info := Truncated(ProxyInfo.Printed(reqs[c].sock, words[1], words[2], meth, words[0]));
      var got := NewEntry(c, Entry(words[1], words[2], tbuf, words[3], words[4], info));
      reply := if got == 0 then OK else EXISTS;
    }

    /** DelReq with a method. */
    method DelReq(c: nat, words: seq<string>) returns (reply: string)
      requires c < |reqs|
      modifies this
      ensures reqs == After(cfg, old(reqs), c, Del(words))
      ensures |words| >= 1 ==>
                reply == if SomeNamed(old(reqs)[c].entries, Kept(cfg, old(reqs)[c].ip, words[0])) then OK else MISSING
    {
      if |words| < 1 {
        return DEL_USAGE;
      }
      var meth := cfg.firewall(reqs[c].ip, words[0]);
      var tbuf := if words[0] == meth then meth else Truncated(meth + "," + words[0]);
      var got := DelEntry(c, tbuf);
      reply := if got == 0 then OK else MISSING;
    }

    method DelProxyReq(c: nat, words: seq<string>) returns (reply: string)
      requires c < |reqs|
      modifies this
      ensures reqs == After(cfg, old(reqs), c, DelProxy(words))
      ensures cfg.proxies && |words| >= 1 ==>
                reply == if SomeNamed(old(reqs)[c].entries, SoughtProxy(cfg, old(reqs)[c].ip, words[0])) then OK
                         else MISSING
    {
      if !cfg.proxies {
        return NO_PROXIES;
      }
      if |words| < 1 {
        return DEL_USAGE;
      }
      var meth := cfg.firewall(reqs[c].ip, words[0]);
      var tbuf := if words[0] == meth then meth else Truncated("@" + meth + "," + words[0]);
      var got := DelEntry(c, tbuf);
      reply := if got == 0 then OK else MISSING;
    }

    /** DelReq without an argument: DelEntry of everything and FreeReq. */
    method Close(c: nat)
      requires c < |reqs|
      modifies this
      ensures reqs == Closed(old(reqs), c)
    {
      ghost var before := reqs;
      var _ := DelEntry(c, "");
      reqs := reqs[..c] + reqs[c + 1..];
      assert reqs == Closed(before, c);
    }

    /** The server's loop body for one event; a request or a reply needs an open connection. */
    method Serve(ev: Event) returns (reply: string)
      requires Valid() && (ev.Connect? <==> Find(reqs, ev.sock) == |reqs|)
      modifies this
      ensures Valid() && reqs == Step(cfg, old(reqs), ev)
    {
      StepSafe(cfg, reqs, ev);
      reply := "";
      var c := Find(reqs, ev.sock);
      match ev {
        case Connect(sock, ip, port) => NewReq(sock, ip, port);
        case Ask(_, Add(words)) => reply := AddReq(c, words);
        case Ask(_, AddProxy(words)) => reply := AddProxyReq(c, words);
        case Ask(_, Del(words)) => reply := DelReq(c, words);
        case Ask(_, DelProxy(words)) => reply := DelProxyReq(c, words);
        case Ask(_, Disconnect) => Close(c);
      }
    }
  }

  lemma EntriesTwice(reqs: seq<Req>, c: nat, es: seq<Entry>, es': seq<Entry>)
    requires c < |reqs|
    ensures WithEntries(WithEntries(reqs, c, es), c, es') == WithEntries(reqs, c, es')
  {}

  /** DelEntry has looked at the first entries, and k of them are left.  The definition only unfolds where a
      proof mentions Unfold. */
  ghost predicate Deleting(all: seq<Entry>, now: seq<Entry>, k: nat, meth: string, got: int)
    requires k <= |now|
  {
    forall n {:trigger Unfold(n)} :: Unfold(n) ==> DeletingAt(all, now[..k], now[k..], meth, got)
  }

  /** The entries kept so far and the rest. */
  ghost predicate DeletingAt(all: seq<Entry>, kept: seq<Entry>, rest: seq<Entry>, meth: string, got: int) {
    && kept + Remaining(rest, meth) == Remaining(all, meth) && (forall e :: e in rest ==> e in all)
    && if got == 0 then SomeNamed(all, meth) else got == -1 && forall e :: e in all && Named(meth, e) ==> e in rest
  }

  ghost predicate SomeNamed(entries: seq<Entry>, meth: string) { exists e :: e in entries && Named(meth, e) }

  lemma DeletingFirst(all: seq<Entry>, meth: string)
    ensures Deleting(all, all, 0, meth, -1)
  {
    assert all[0..] == all && all[..0] + Remaining(all, meth) == Remaining(all, meth);
  }

  lemma DeletingLast(all: seq<Entry>, now: seq<Entry>, k: nat, meth: string, got: int)
    requires k == |now| && Deleting(all, now, k, meth, got)
    ensures now == Remaining(all, meth) && got == if SomeNamed(all, meth) then 0 else -1
  {
    assert Unfold(0);
    assert now[..k] + [] == now;
  }

  lemma DeletingDrops(all: seq<Entry>, now: seq<Entry>, k: nat, meth: string, got: int)
    requires k < |now| && Deleting(all, now, k, meth, got) && Named(meth, now[k])
    ensures Deleting(all, WithoutEntry(now, k), k, meth, 0)
  {
    var now', rest := WithoutEntry(now, k), now[k + 1..];
    assert Unfold(0);
    assert now[k..] == [now[k]] + rest && now'[..k] == now[..k] && now'[k..] == rest;
    Drops(all, now[..k], now[k], rest, meth, got);
  }

  lemma DeletingKeeps(all: seq<Entry>, now: seq<Entry>, k: nat, meth: string, got: int)
    requires k < |now| && Deleting(all, now, k, meth, got) && !Named(meth, now[k])
    ensures Deleting(all, now, k + 1, meth, got)
  {
    var rest := now[k + 1..];
    assert Unfold(0);
    assert now[k..] == [now[k]] + rest && now[..k + 1] == now[..k] + [now[k]];
    Keeps(all, now[..k], now[k], rest, meth, got);
  }

  lemma Drops(all: seq<Entry>, kept: seq<Entry>, e: Entry, rest: seq<Entry>, meth: string, got: int)
    requires DeletingAt(all, kept, [e] + rest, meth, got) && Named(meth, e)
    ensures DeletingAt(all, kept, rest, meth, 0)
  {
    RemainingFirst(e, rest, meth);
    InFirst(e, rest);
    assert e in all;
  }

  lemma Keeps(all: seq<Entry>, kept: seq<Entry>, e: Entry, rest: seq<Entry>, meth: string, got: int)
    requires DeletingAt(all, kept, [e] + rest, meth, got) && !Named(meth, e)
    ensures DeletingAt(all, kept + [e], rest, meth, got)
  {
    RemainingFirst(e, rest, meth);
    InFirst(e, rest);
    Associative(kept, [e], Remaining(rest, meth));
  }

  lemma InFirst(e: Entry, rest: seq<Entry>)
    ensures forall x :: x in [e] + rest <==> x == e || x in rest
  {}

  lemma RemainingFirst(e: Entry, rest: seq<Entry>, meth: string)
    ensures Remaining([e] + rest, meth) == if Named(meth, e) then Remaining(rest, meth) else [e] + Remaining(rest, meth)
  {
    assert ([e] + rest)[1..] == rest;
    assert [] + Remaining(rest, meth) == Remaining(rest, meth);
  }
}
