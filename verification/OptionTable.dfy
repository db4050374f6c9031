/** How argtable2 compiles its table into getopt's option strings (libargtable/argtable2.c). */
module OptionTable {
  import opened Common
  import opened OptionSyntax

  /** The parts of struct arg_hdr that matter here.  The terminating arg_end has no options and is
      not part of the table. */
  datatype Entry = Entry(shortopts: Option<string>, longopts: Option<string>, hasValue: bool, hasOptValue: bool) {
    function Short(): string { if shortopts.Some? then shortopts.value else "" }
    function Long(): string { if longopts.Some? then longopts.value else "" }

    /** The has_arg of the entry's long options. */
    function HasArg(): int { if hasOptValue then 2 else if hasValue then 1 else 0 }
  }

  // ---- Comma-separated names -------------------------------------------------------------

  function Commas(s: string): nat {
    if s == "" then 0 else (if s[0] == ',' then 1 else 0) + Commas(s[1..])
  }

  /** Length of the text before the first comma. */
  function PieceEnd(s: string): (n: nat)
    ensures n <= |s| && (n < |s| ==> s[n] == ',') && forall k :: 0 <= k < n ==> s[k] != ','
  {
    if s == "" || s[0] == ',' then 0 else 1 + PieceEnd(s[1..])
  }

  /** All pieces of s between its commas. */
  function Pieces(s: string): (ps: seq<string>)
    ensures |ps| >= 1
    decreases |s|
  {
    var n := PieceEnd(s);
    if n == |s| then [s] else [s[..n]] + Pieces(s[n + 1..])
  }

  function Joined(ps: seq<string>): string
    requires |ps| >= 1
  {
    if |ps| == 1 then ps[0] else ps[0] + "," + Joined(ps[1..])
  }

  /** The names the fill pass stores: it stops at the end of the text, so a trailing comma does not
      start another name. */
  function Names(s: string): seq<string>
    decreases |s|
  {
    if s == "" then []
    else
      var n := PieceEnd(s);
      if n == |s| then [s] else [s[..n]] + Names(s[n + 1..])
  }

  predicate EndsInComma(s: string) { s != "" && s[|s| - 1] == ',' }

  lemma {:induction false} PiecesJoin(s: string)
    ensures Joined(Pieces(s)) == s && forall p :: p in Pieces(s) ==> Commas(p) == 0
    decreases |s|
  {
    var n := PieceEnd(s);
    NoCommas(s[..n]);
    if n < |s| {
      PiecesJoin(s[n + 1..]);
      JoinedFirst(s[..n], Pieces(s[n + 1..]));
      AtComma(s, n);
    } else {
      assert s[..n] == s;
    }
  }

  lemma AtComma(s: string, n: nat)
    requires n < |s| && s[n] == ','
    ensures s[..n] + "," + s[n + 1..] == s
  {}

  lemma JoinedFirst(p: string, ps: seq<string>)
    requires |ps| >= 1
    ensures Joined([p] + ps) == p + "," + Joined(ps)
  {
    assert ([p] + ps)[1..] == ps;
  }

  lemma {:induction false} NoCommas(s: string)
    requires forall k :: 0 <= k < |s| ==> s[k] != ','
    ensures Commas(s) == 0
  {
    if s != "" {
      NoCommas(s[1..]);
    }
  }

  /** The stored names are exactly the pieces between the commas, but for the empty piece after a
      trailing comma. */
  lemma {:induction false} NamesArePieces(s: string)
    requires s != ""
    ensures Pieces(s) == if EndsInComma(s) then Names(s) + [""] else Names(s)
    decreases |s|
  {
    var n := PieceEnd(s);
    if n < |s| {
      var rest := s[n + 1..];
      AtComma(s, n);
      LastOfTail(s, n + 1, rest);
      if rest == "" {
        assert Pieces(rest) == [""] && Names(rest) == [];
      } else {
        NamesArePieces(rest);
        PieceAdded(s[..n], Pieces(rest), Names(rest), EndsInComma(rest));
      }
    }
  }

  lemma PieceAdded(piece: string, pieces: seq<string>, names: seq<string>, ends: bool)
    requires pieces == if ends then names + [""] else names
    ensures [piece] + pieces == if ends then ([piece] + names) + [""] else [piece] + names
  {}

  lemma {:induction false} CommasAtPiece(s: string)
    ensures var n := PieceEnd(s); Commas(s) == if n == |s| then 0 else 1 + Commas(s[n + 1..])
    decreases |s|
  {
    if s != "" && s[0] != ',' {
      CommasAtPiece(s[1..]);
      var n := PieceEnd(s);
      if n < |s| {
        assert s[1..][n..] == s[n + 1..];
      }
    }
  }

  lemma {:induction false} NamesCount(s: string)
    requires s != ""
    ensures |Names(s)| == Commas(s) + (if EndsInComma(s) then 0 else 1)
    decreases |s|
  {
    CommasAtPiece(s);
    var n := PieceEnd(s);
    if n < |s| {
      var rest := s[n + 1..];
      LastOfTail(s, n + 1, rest);
      if rest == "" {
        assert Names(rest) == [] && Commas(rest) == 0;
      } else {
        NamesCount(rest);
      }
    }
  }

  lemma LastOfTail(s: string, n: nat, rest: string)
    requires 0 < n <= |s| && rest == s[n..] && s[n - 1] == ','
    ensures EndsInComma(s) <==> rest == "" || EndsInComma(rest)
  {
    assert rest != "" ==> rest[|rest| - 1] == s[|s| - 1];
  }

  /** Bytes needed to store names with their terminators. */
  function Bytes(ns: seq<string>): nat {
    if ns == [] then 0 else |ns[0]| + 1 + Bytes(ns[1..])
  }

  /** The names of one entry fit into its text and one terminator. */
  lemma {:induction false} NamesFit(s: string)
    ensures Bytes(Names(s)) <= |s| + 1
    decreases |s|
  {
    if s != "" {
      var n := PieceEnd(s);
      if n == |s| {
        assert Bytes([s]) == |s| + 1;
      } else {
        NamesFit(s[n + 1..]);
        assert ([s[..n]] + Names(s[n + 1..]))[1..] == Names(s[n + 1..]);
        if s[n + 1..] == "" {
          assert Bytes([s[..n]]) == n + 1;
        }
      }
    }
  }

  /** What the counting pass adds for an entry: one, and one for each comma after the first
      character. */
  function Counted(s: string): nat { if s == "" then 0 else 1 + Commas(s[1..]) }

  /** For a single entry, the counting pass reserves at least as many slots as the fill pass uses,
      unless the text starts with a comma and does not end with one. */
  lemma SlotsExact(s: string)
    requires s != ""
    ensures |Names(s)| <= Counted(s) <==> !(s[0] == ',' && !EndsInComma(s))
    ensures |Names(s)| == Counted(s) + (if s[0] == ',' then 1 else 0) - (if EndsInComma(s) then 1 else 0)
  {
    NamesCount(s);
  }

  // ---- The whole table -------------------------------------------------------------------

  /** The options array and the store that the first n entries need. */
  function SlotsCounted(table: seq<Entry>, n: nat): nat
    requires n <= |table|
  {
    if n == 0 then 0 else SlotsCounted(table, n - 1) + Counted(table[n - 1].Long())
  }

  function BytesCounted(table: seq<Entry>, n: nat): nat
    requires n <= |table|
  {
    if n == 0 then 0 else BytesCounted(table, n - 1) + |table[n - 1].Long()| + 1
  }

  /** The long names of the first n entries, in table order. */
  function AllNames(table: seq<Entry>, n: nat): seq<string>
    requires n <= |table|
  {
    if n == 0 then [] else AllNames(table, n - 1) + Names(table[n - 1].Long())
  }

  /** The entries to which these names belong. */
  function Owners(table: seq<Entry>, n: nat): (o: seq<nat>)
    requires n <= |table|
    ensures |o| == |AllNames(table, n)| && forall k :: 0 <= k < |o| ==> o[k] < n
  {
    if n == 0 then [] else Owners(table, n - 1) + Repeat(|Names(table[n - 1].Long())|, n - 1)
  }

  /** Long options are not empty, as counting them requires. */
  predicate CountableTable(table: seq<Entry>) {
    forall k :: 0 <= k < |table| && table[k].longopts.Some? ==> table[k].longopts.value != ""
  }

  /** How many entries start with a comma, and how many end with one. */
  function Leading(table: seq<Entry>, n: nat): nat
    requires n <= |table|
  {
    if n == 0 then 0
    else Leading(table, n - 1) + (if table[n - 1].Long() != "" && table[n - 1].Long()[0] == ',' then 1 else 0)
  }

  function Trailing(table: seq<Entry>, n: nat): nat
    requires n <= |table|
  {
    if n == 0 then 0 else Trailing(table, n - 1) + (if EndsInComma(table[n - 1].Long()) then 1 else 0)
  }

  /** Exactly when the slots counted suffice: there are no more entries with a leading comma than
      entries with a trailing one. */
  lemma {:induction false} SlotsSuffice(table: seq<Entry>, n: nat)
    requires n <= |table|
    ensures |AllNames(table, n)| + Trailing(table, n) == SlotsCounted(table, n) + Leading(table, n)
    ensures |AllNames(table, n)| <= SlotsCounted(table, n) <==> Leading(table, n) <= Trailing(table, n)
  {
    if n > 0 {
      SlotsSuffice(table, n - 1);
      SlotsOfEntry(table[n - 1].Long());
    }
  }

  /** The long options ",a" of a single entry have two names in one slot. */
  lemma LeadingComma()
    ensures var table := [Entry(None, Some(",a"), false, false)];
            SlotsCounted(table, 1) == 1 && AllNames(table, 1) == ["", "a"]
  {
    var table := [Entry(None, Some(",a"), false, false)];
    assert SlotsCounted(table, 0) == 0 && AllNames(table, 0) == [];
    assert ",a"[1..] == "a" && ",a"[..0] == "" && "a"[1..] == "";
    assert Commas("a") == 0 && Names("a") == ["a"] && Names(",a") == ["", "a"];
  }

  lemma SlotsOfEntry(text: string)
    ensures |Names(text)| + (if EndsInComma(text) then 1 else 0)
         == Counted(text) + (if text != "" && text[0] == ',' then 1 else 0)
  {
    if text != "" {
      SlotsExact(text);
    }
  }

  lemma {:induction false} BytesConcat(a: seq<string>, b: seq<string>)
    ensures Bytes(a + b) == Bytes(a) + Bytes(b)
  {
    if a == [] {
      assert a + b == b;
    } else {
      BytesConcat(a[1..], b);
      assert (a + b)[1..] == a[1..] + b;
    }
  }

  /** The bytes counted always suffice. */
  lemma BytesSuffice(table: seq<Entry>, n: nat)
    requires n <= |table|
    ensures Bytes(AllNames(table, n)) <= BytesCounted(table, n)
  {
    var names, limit := AllWithin(table, n);
    assert Unfold(0);
  }

  /** The names take that many bytes at most.  The definition only unfolds where a proof mentions Unfold. */
  ghost predicate Within(names: seq<string>, limit: nat) {
    forall n {:trigger Unfold(n)} :: Unfold(n) ==> Bytes(names) <= limit
  }

  lemma {:induction false} AllWithin(table: seq<Entry>, n: nat) returns (names: seq<string>, limit: nat)
    requires n <= |table|
    ensures names == AllNames(table, n) && limit == BytesCounted(table, n) && Within(names, limit)
  {
    if n == 0 {
      names, limit := [], 0;
    } else {
      var text := table[n - 1].Long();
      var before, counted := AllWithin(table, n - 1);
      names, limit := before + Names(text), counted + |text| + 1;
      WithinMore(before, Names(text), text, names, counted);
    }
  }

  lemma WithinMore(before: seq<string>, names: seq<string>, text: string, all: seq<string>, limit: nat)
    requires names == Names(text) && all == before + names && Within(before, limit)
    ensures Within(all, limit + |text| + 1)
  {
    assert Unfold(0);
    BytesOfEntry(before, text);
  }

  lemma BytesOfEntry(before: seq<string>, text: string)
    ensures Bytes(before + Names(text)) <= Bytes(before) + |text| + 1
  {
    BytesConcat(before, Names(text));
    NamesFit(text);
  }

  lemma BytesPrefix(a: seq<string>, b: seq<string>)
    requires a <= b
    ensures Bytes(a) <= Bytes(b)
  {
    BytesConcat(a, b[|a|..]);
    assert b == a + b[|a|..];
  }

  lemma {:induction false} NamesPrefix(table: seq<Entry>, m: nat, n: nat)
    requires m <= n <= |table|
    ensures AllNames(table, m) <= AllNames(table, n)
    decreases n - m
  {
    if m < n {
      NamesPrefix(table, m, n - 1);
    }
  }

  /** The inner loop of the counting pass: one more for each comma that strchr still finds. */
  method CountOptions(longopts: string) returns (n: nat)
    requires longopts != ""
    ensures n == Counted(longopts)
  {
    n := 0;
    var s := longopts;
    var more := true;
    while more
      invariant more ==> s != "" && n + Counted(s) == Counted(longopts)
      invariant !more ==> n == Counted(longopts)
      decreases more, |s|
    {
      n := n + 1;
      var t := s[1..];
      CommasAtPiece(t);
      var comma := PieceEnd(t);
      if comma < |t| {
        s := t[comma..];
      } else {
        more := false;
      }
    }
  }

  /** The counting pass: slots (with the terminating one) and bytes (with the byte that the
      terminating entry adds). */
  method CountPass(table: seq<Entry>) returns (noptions: nat, longoptlen: nat)
    requires CountableTable(table)
    ensures noptions == 1 + SlotsCounted(table, |table|) && longoptlen == BytesCounted(table, |table|) + 1
  {
    noptions, longoptlen := 1, 0;
    for i := 0 to |table|
      invariant noptions == 1 + SlotsCounted(table, i) && longoptlen == BytesCounted(table, i)
    {
      longoptlen := longoptlen + |table[i].Long()| + 1;
      if table[i].longopts.Some? {
        var n := CountOptions(table[i].longopts.value);
        noptions := noptions + n;
      }
    }
    longoptlen := longoptlen + 1;
  }

  // ---- The fill pass ---------------------------------------------------------------------

  /** struct option with its name as an offset into the store; None ends the array. */
  datatype Slot = Slot(name: Option<nat>, hasArg: int, val: nat)

  /** The slot names `name`, stored before position `end`, and belongs to entry i of the table. */
  ghost predicate NamesEntry(slot: Slot, store: seq<char>, end: nat, name: string, table: seq<Entry>, i: nat) {
    && i < |table| && slot.val == i && slot.hasArg == table[i].HasArg() && slot.name.Some?
    && slot.name.value + |name| + 1 <= end <= |store|
    && store[slot.name.value..slot.name.value + |name| + 1] == name + ['\0']
  }

  /** The first |names| slots hold these names.  The definition only unfolds where a proof mentions Unfold. */
  ghost predicate Filled(slots: seq<Slot>, store: seq<char>, end: nat, names: seq<string>, owners: seq<nat>,
                         table: seq<Entry>) {
    forall n {:trigger Unfold(n)} :: Unfold(n) ==> FilledAt(slots, store, end, names, owners, table)
  }

  ghost predicate FilledAt(slots: seq<Slot>, store: seq<char>, end: nat, names: seq<string>, owners: seq<nat>,
                           table: seq<Entry>) {
    && |names| == |owners| <= |slots| && end <= |store|
    && forall k :: 0 <= k < |names| ==> NamesEntry(slots[k], store, end, names[k], table, owners[k])
  }

  /** Later writes to the store and to later slots do not disturb what is there. */
  lemma FillOne(slots: seq<Slot>, slots': seq<Slot>, store: seq<char>, store': seq<char>, end: nat, end': nat,
                names: seq<string>, owners: seq<nat>, table: seq<Entry>, name: string, i: nat)
    requires Filled(slots, store, end, names, owners, table) && i < |table|
    requires |slots'| == |slots| > |names| && |store'| == |store|
    requires forall k :: 0 <= k < |names| ==> slots'[k] == slots[k]
    requires slots'[|names|] == Slot(Some(end), table[i].HasArg(), i)
    requires end' == end + |name| + 1 <= |store| && store'[..end] == store[..end]
    requires store'[end..end'] == name + ['\0']
    ensures Filled(slots', store', end', names + [name], owners + [i], table)
  {
    assert Unfold(0);
    var ns := names + [name];
    forall k | 0 <= k < |ns|
      ensures NamesEntry(slots'[k], store', end', ns[k], table, (owners + [i])[k])
    {
      if k < |names| {
        assert NamesEntry(slots[k], store, end, names[k], table, owners[k]);
        var o := slots[k].name.value;
        SlicesAgree(store, store', end, o, o + |names[k]| + 1);
      }
    }
  }

  lemma SlicesAgree(s: seq<char>, s': seq<char>, end: nat, from: nat, to: nat)
    requires from <= to <= end <= |s| == |s'| && s'[..end] == s[..end]
    ensures s'[from..to] == s[from..to]
  {
    assert s'[from..to] == s'[..end][from..to] && s[from..to] == s[..end][from..to];
  }

  /** Copy one name and its terminator into the store. */
  method CopyName(store: array<char>, pos: nat, text: string) returns (n: nat)
    requires pos + PieceEnd(text) + 1 <= store.Length
    modifies store
    ensures n == PieceEnd(text)
    ensures store[..pos] == old(store[..pos]) && store[pos..pos + n + 1] == text[..n] + ['\0']
  {
    n := 0;
    while n < |text| && text[n] != ','
      invariant n <= PieceEnd(text)
      invariant forall k :: 0 <= k < pos ==> store[k] == old(store[k])
      invariant store[pos..pos + n] == text[..n]
    {
      store[pos + n] := text[n];
      n := n + 1;
    }
    store[pos + n] := '\0';
  }

  /** Store one name and describe it in its slot. */
  method FillSlot(table: seq<Entry>, i: nat, text: string, options: array<Slot>, store: array<char>,
                  optionIndex: nat, pos: nat, ghost names: seq<string>, ghost owners: seq<nat>)
    returns (n: nat, pos': nat)
    requires i < |table| && Filled(options[..], store[..], pos, names, owners, table)
    requires optionIndex == |names| < options.Length && pos + PieceEnd(text) + 1 <= store.Length
    modifies options, store
    ensures n == PieceEnd(text) && pos' == pos + n + 1
    ensures Filled(options[..], store[..], pos', names + [text[..n]], owners + [i], table)
  {
    ghost var slots, bytes := options[..], store[..];
    n := CopyName(store, pos, text);
    pos' := pos + n + 1;
    options[optionIndex] := Slot(Some(pos), table[i].HasArg(), i);
    FillOne(slots, options[..], bytes, store[..], pos, pos', names, owners, table, text[..n], i);
  }

  /** The names filled in so far, those of the text that is left, and all of them.  The definition only
      unfolds where a proof mentions Unfold. */
  ghost predicate Filling(names: seq<string>, owners: seq<nat>, text: string, i: nat, pos: nat, all: seq<string>,
                          whole: seq<nat>) {
    forall n {:trigger Unfold(n)} :: Unfold(n) ==>
      && names + Names(text) == all && owners + Repeat(|Names(text)|, i) == whole && |names| == |owners|
      && pos == Bytes(names)
  }

  /** These are the names of the first n entries. */
  ghost predicate NamesOf(table: seq<Entry>, n: nat, names: seq<string>, owners: seq<nat>) {
    forall k {:trigger Unfold(k)} :: Unfold(k) ==>
      n <= |table| && names == AllNames(table, n) && owners == Owners(table, n) && |names| == |owners|
  }

  lemma NoNames(table: seq<Entry>, slots: seq<Slot>, store: seq<char>)
    ensures NamesOf(table, 0, [], []) && Take([], 0) && Filled(slots, store, 0, [], [], table)
  {}

  lemma AllOfThem(table: seq<Entry>, names: seq<string>, owners: seq<nat>)
    requires NamesOf(table, |table|, names, owners)
    ensures names == AllNames(table, |table|) && owners == Owners(table, |table|)
  {
    assert Unfold(0);
  }

  /** The names after entry i, which is still to be filled in. */
  lemma EntryNames(table: seq<Entry>, i: nat, next: nat, names: seq<string>, owners: seq<nat>, pos: nat,
                   most: seq<string>, limit: nat)
    returns (all: seq<string>, whole: seq<nat>)
    requires i < |table| && next == i + 1 && NamesOf(table, i, names, owners) && Take(names, pos)
    requires most == AllNames(table, |table|) && Within(most, limit)
    ensures NamesOf(table, next, all, whole) && Filling(names, owners, table[i].Long(), i, pos, all, whole)
    ensures Within(all, limit) && |all| <= |most|
  {
    assert Unfold(0);
    EntryFits(table, i);
    all, whole := AllNames(table, next), Owners(table, next);
  }

  /** The names take that many bytes. */
  ghost predicate Take(names: seq<string>, bytes: nat) {
    forall n {:trigger Unfold(n)} :: Unfold(n) ==> bytes == Bytes(names)
  }

  lemma FillingLast(names: seq<string>, owners: seq<nat>, i: nat, pos: nat, all: seq<string>, whole: seq<nat>)
    requires Filling(names, owners, "", i, pos, all, whole)
    ensures names == all && owners == whole && Take(all, pos)
  {
    assert Unfold(0);
    assert names + [] == names && owners + [] == owners;
  }

  lemma FillingStep(names: seq<string>, owners: seq<nat>, text: string, i: nat, pos: nat, all: seq<string>,
                    whole: seq<nat>, name: string, rest: string, pos': nat, limit: nat)
    requires Within(all, limit) && Filling(names, owners, text, i, pos, all, whole)
    requires Names(text) == [name] + Names(rest) && pos' == pos + |name| + 1
    ensures Filling(names + [name], owners + [i], rest, i, pos', all, whole)
    ensures pos' <= limit && |names| < |all|
  {
    assert Unfold(0);
    NamesStep(names, name, Names(rest), all);
    OwnersStep(owners, i, |Names(rest)|, whole);
    BytesStep(names, name, Names(rest), all, pos, limit);
  }

  lemma NamesStep(names: seq<string>, name: string, more: seq<string>, all: seq<string>)
    requires names + ([name] + more) == all
    ensures (names + [name]) + more == all && |names| < |all|
  {}

  lemma OwnersStep(owners: seq<nat>, i: nat, n: nat, whole: seq<nat>)
    requires owners + Repeat(n + 1, i) == whole
    ensures (owners + [i]) + Repeat(n, i) == whole
  {
    assert Repeat(n + 1, i) == [i] + Repeat(n, i);
    Associative(owners, [i], Repeat(n, i));
  }

  lemma BytesStep(names: seq<string>, name: string, more: seq<string>, all: seq<string>, pos: nat, limit: nat)
    requires Bytes(names) == pos && all == names + ([name] + more) && Bytes(all) <= limit
    ensures Bytes(names + [name]) == pos + |name| + 1 <= limit
  {
    BytesAppend(names, name);
    BytesSplit(names, name, more);
  }

  /** The inner loop of the fill pass: the names of entry i, after `names0` of earlier entries. */
  method FillEntry(table: seq<Entry>, i: nat, options: array<Slot>, store: array<char>, index0: nat, pos0: nat,
                   ghost names0: seq<string>, ghost owners0: seq<nat>, ghost all: seq<string>, ghost whole: seq<nat>)
    returns (optionIndex: nat, pos: nat)
    requires i < |table| && Filled(options[..], store[..], pos0, names0, owners0, table) && index0 == |names0|
    requires Filling(names0, owners0, table[i].Long(), i, pos0, all, whole)
    requires Within(all, store.Length) && |all| <= options.Length
    modifies options, store
    ensures Filled(options[..], store[..], pos, all, whole, table) && optionIndex == |all| && Take(all, pos)
  {
    var text := table[i].Long();
    optionIndex, pos := index0, pos0;
    ghost var names, owners := names0, owners0;
    while text != ""
      invariant Filling(names, owners, text, i, pos, all, whole) && optionIndex == |names|
      invariant Filled(options[..], store[..], pos, names, owners, table)
      decreases |text|
    {
      ghost var name, rest := NextName(text);
      FillingStep(names, owners, text, i, pos, all, whole, name, rest, pos + |name| + 1, store.Length);
      var n;
      n, pos := FillSlot(table, i, text, options, store, optionIndex, pos, names, owners);
      names, owners := names + [name], owners + [i];
      optionIndex := optionIndex + 1;
      text := if n < |text| then text[n + 1..] else "";
    }
    FillingLast(names, owners, i, pos, all, whole);
  }

  function Repeat(n: nat, i: nat): seq<nat> { seq(n, _ => i) }

  lemma NextName(text: string) returns (name: string, rest: string)
    requires text != ""
    ensures var n := PieceEnd(text); name == text[..n] && rest == if n < |text| then text[n + 1..] else ""
    ensures Names(text) == [name] + Names(rest)
  {
    var n := PieceEnd(text);
    name, rest := text[..n], if n < |text| then text[n + 1..] else "";
    assert n == |text| ==> name == text && [name] + [] == [name];
  }

  lemma BytesOfOne(name: string, rest: seq<string>)
    ensures Bytes([name] + rest) == |name| + 1 + Bytes(rest)
  {
    assert ([name] + rest)[1..] == rest;
  }

  lemma BytesAppend(done: seq<string>, name: string)
    ensures Bytes(done + [name]) == Bytes(done) + |name| + 1
  {
    BytesConcat(done, [name]);
    BytesOfOne(name, []);
    assert [name] + [] == [name];
  }

  lemma BytesSplit(done: seq<string>, name: string, rest: seq<string>)
    ensures Bytes(done + ([name] + rest)) >= Bytes(done) + |name| + 1
  {
    BytesConcat(done, [name] + rest);
    BytesOfOne(name, rest);
  }

  /** The fill pass over the table. */
  method FillPass(table: seq<Entry>, options: array<Slot>, store: array<char>) returns (optionIndex: nat)
    requires |AllNames(table, |table|)| < options.Length && Bytes(AllNames(table, |table|)) <= store.Length
    modifies options, store
    ensures optionIndex == |AllNames(table, |table|)|
    ensures Filled(options[..], store[..], store.Length, AllNames(table, |table|), Owners(table, |table|), table)
  {
    ghost var most := AllNames(table, |table|);
    assert Within(most, store.Length);
    ghost var names, owners;
    var pos;
    optionIndex, pos, names, owners := FillEntries(table, options, store, most);
    AllOfThem(table, names, owners);
    FilledStays(options[..], options[..], store[..], pos, names, owners, table);
  }

  /** Its loop. */
  method FillEntries(table: seq<Entry>, options: array<Slot>, store: array<char>, ghost most: seq<string>)
    returns (optionIndex: nat, pos: nat, ghost names: seq<string>, ghost owners: seq<nat>)
    requires most == AllNames(table, |table|) && |most| < options.Length && Within(most, store.Length)
    modifies options, store
    ensures NamesOf(table, |table|, names, owners) && optionIndex == |names|
    ensures Filled(options[..], store[..], pos, names, owners, table)
  {
    optionIndex, pos, names, owners := 0, 0, [], [];
    NoNames(table, options[..], store[..]);
    var i := 0;
    while i < |table|
      invariant i <= |table| && NamesOf(table, i, names, owners) && optionIndex == |names| && Take(names, pos)
      invariant Filled(options[..], store[..], pos, names, owners, table)
    {
      ghost var all, whole := EntryNames(table, i, i + 1, names, owners, pos, most, store.Length);
      optionIndex, pos := FillEntry(table, i, options, store, optionIndex, pos, names, owners, all, whole);
      names, owners := all, whole;
      i := i + 1;
    }
  }

  lemma EntryFits(table: seq<Entry>, i: nat)
    requires i < |table|
    ensures var ns := Names(table[i].Long());
      && AllNames(table, i + 1) == AllNames(table, i) + ns && Owners(table, i + 1) == Owners(table, i) + Repeat(|ns|, i)
      && |AllNames(table, i)| + |ns| <= |AllNames(table, |table|)|
      && |AllNames(table, i) + ns| <= |AllNames(table, |table|)|
      && Bytes(AllNames(table, i) + ns) <= Bytes(AllNames(table, |table|))
  {
    BytesConcat(AllNames(table, i), Names(table[i].Long()));
    NamesPrefix(table, i + 1, |table|);
    BytesPrefix(AllNames(table, i + 1), AllNames(table, |table|));
  }

  /** alloc_longoptions.  Given that the slots counted suffice, the options array holds exactly the
      long names of the table in order, each with the arity and the index of its entry, followed
      by the terminating slot. */
  method AllocLongOptions(table: seq<Entry>) returns (options: array<Slot>, store: array<char>)
    requires CountableTable(table) && Leading(table, |table|) <= Trailing(table, |table|)
    ensures Filled(options[..], store[..], store.Length, AllNames(table, |table|), Owners(table, |table|), table)
    ensures |AllNames(table, |table|)| < options.Length && options[|AllNames(table, |table|)|] == Slot(None, 0, 0)
  {
    var noptions, longoptlen := CountPass(table);
    SlotsSuffice(table, |table|);
    BytesSuffice(table, |table|);
    options, store := new Slot[noptions](_ => Slot(None, 0, 0)), new char[longoptlen](_ => '\0');
    var optionIndex := FillPass(table, options, store);
    ghost var slots := options[..];
    options[optionIndex] := Slot(None, 0, 0);
    FilledStays(slots, options[..], store[..], store.Length, AllNames(table, |table|), Owners(table, |table|), table);
  }

  lemma FilledStays(slots: seq<Slot>, slots': seq<Slot>, store: seq<char>, end: nat,
                    names: seq<string>, owners: seq<nat>, table: seq<Entry>)
    requires Filled(slots, store, end, names, owners, table)
    requires |slots'| == |slots| >= |names| && forall k :: 0 <= k < |names| ==> slots'[k] == slots[k]
    ensures Filled(slots', store, |store|, names, owners, table)
  {
    assert Unfold(0);
    forall k | 0 <= k < |names|
      ensures NamesEntry(slots'[k], store, |store|, names[k], table, owners[k])
    {
      assert NamesEntry(slots[k], store, end, names[k], table, owners[k]);
    }
  }

  // ---- Short options ---------------------------------------------------------------------

  function Colons(e: Entry): string { (if e.hasValue then ":" else "") + (if e.hasOptValue then ":" else "") }

  function Expand(letters: string, colons: string): string {
    if letters == "" then "" else [letters[0]] + colons + Expand(letters[1..], colons)
  }

  /** The option letters of the entries from i on. */
  function ShortFrom(table: seq<Entry>, i: nat): string
    requires i <= |table|
    decreases |table| - i
  {
    if i == |table| then "" else Expand(table[i].Short(), Colons(table[i])) + ShortFrom(table, i + 1)
  }

  function ShortString(table: seq<Entry>): string { ":" + ShortFrom(table, 0) }

  /** find_shortoption: the first entry with the letter, or |table|. */
  function FindShort(table: seq<Entry>, c: char, i: nat): (k: nat)
    requires i <= |table|
    ensures i <= k <= |table| && (k < |table| ==> c in table[k].Short())
    ensures forall j :: i <= j < k ==> c !in table[j].Short()
    decreases |table| - i
  {
    if i == |table| || c in table[i].Short() then i else FindShort(table, c, i + 1)
  }

  predicate NoColons(table: seq<Entry>) { forall k :: 0 <= k < |table| ==> ':' !in table[k].Short() }

  /** At position k of the letters, exactly these colons follow. */
  predicate FollowedBy(os: string, k: nat, colons: string) {
    k + |colons| < |os| && os[k + 1..k + 1 + |colons|] == colons && At(os, k + 1 + |colons|) != ':'
  }

  lemma {:induction false} IndexOfConcat(a: string, b: string, c: char)
    ensures IndexOf(a + b, c) == if IndexOf(a, c) < |a| then IndexOf(a, c) else |a| + IndexOf(b, c)
  {
    if a == "" {
      assert a + b == b;
    } else if a[0] != c {
      IndexOfConcat(a[1..], b, c);
      assert (a + b)[1..] == a[1..] + b;
    }
  }

  lemma {:induction false} NotInColons(colons: string, c: char)
    requires c != ':' && forall k :: 0 <= k < |colons| ==> colons[k] == ':'
    ensures IndexOf(colons, c) == |colons|
  {}

  /** Within one entry: a letter is found where it stands, followed by the entry's colons. */
  lemma {:induction false} ExpandIndex(letters: string, colons: string, c: char)
    requires c != ':' && ':' !in letters && forall k :: 0 <= k < |colons| ==> colons[k] == ':'
    ensures var os := Expand(letters, colons); var k := IndexOf(os, c);
      && (k < |os| <==> c in letters) && (k < |os| ==> FollowedBy(os, k, colons))
      && (os != "" ==> os[0] != ':')
  {
    if letters != "" {
      var head, tail := [letters[0]] + colons, Expand(letters[1..], colons);
      ExpandIndex(letters[1..], colons, c);
      HeadIndex(letters[0], colons, c);
      IndexOfConcat(head, tail, c);
      if letters[0] == c {
        HeadFollowed(c, colons, tail);
      } else if c in letters {
        assert c in letters[1..];
        FollowedAfter(head, tail, IndexOf(tail, c), IndexOf(head + tail, c), colons);
      }
    }
  }

  lemma HeadIndex(x: char, colons: string, c: char)
    requires c != ':' && forall k :: 0 <= k < |colons| ==> colons[k] == ':'
    ensures IndexOf([x] + colons, c) == if x == c then 0 else 1 + |colons|
  {
    NotInColons(colons, c);
    assert ([x] + colons)[1..] == colons;
  }

  lemma HeadFollowed(c: char, colons: string, tail: string)
    requires tail != "" ==> tail[0] != ':'
    ensures FollowedBy([c] + colons + tail, 0, colons)
  {
    assert ([c] + colons + tail)[1..1 + |colons|] == colons;
  }

  lemma {:induction false} ShortFromIndex(table: seq<Entry>, i: nat, c: char)
    requires i <= |table| && NoColons(table) && c != ':'
    ensures var os := ShortFrom(table, i); var k := IndexOf(os, c); var t := FindShort(table, c, i);
      && (k < |os| <==> t < |table|) && (t < |table| ==> FollowedBy(os, k, Colons(table[t])))
      && (os != "" ==> os[0] != ':')
    decreases |table| - i
  {
    if i < |table| {
      var e, rest := Expand(table[i].Short(), Colons(table[i])), ShortFrom(table, i + 1);
      ExpandIndex(table[i].Short(), Colons(table[i]), c);
      ShortFromIndex(table, i + 1, c);
      var t := FindShort(table, c, i);
      if c in table[i].Short() {
        OwnLetter(e, rest, c, Colons(table[i]));
      } else {
        LaterLetter(e, rest, c, t < |table|, if t < |table| then Colons(table[t]) else "");
      }
      assert e + rest != "" ==> (e + rest)[0] == if e != "" then e[0] else rest[0];
    }
  }

  lemma OwnLetter(e: string, rest: string, c: char, colons: string)
    requires IndexOf(e, c) < |e| && FollowedBy(e, IndexOf(e, c), colons) && (rest != "" ==> rest[0] != ':')
    ensures IndexOf(e + rest, c) < |e + rest| && FollowedBy(e + rest, IndexOf(e + rest, c), colons)
  {
    IndexOfConcat(e, rest, c);
    FollowedByMore(e, rest, IndexOf(e, c), colons);
  }

  lemma LaterLetter(e: string, rest: string, c: char, known: bool, colons: string)
    requires IndexOf(e, c) == |e| && (IndexOf(rest, c) < |rest| <==> known)
    requires known ==> FollowedBy(rest, IndexOf(rest, c), colons)
    ensures IndexOf(e + rest, c) < |e + rest| <==> known
    ensures known ==> FollowedBy(e + rest, IndexOf(e + rest, c), colons)
  {
    IndexOfConcat(e, rest, c);
    if known {
      FollowedAfter(e, rest, IndexOf(rest, c), IndexOf(e + rest, c), colons);
    }
  }

  lemma FollowedByMore(e: string, rest: string, k: nat, colons: string)
    requires FollowedBy(e, k, colons) && (rest != "" ==> rest[0] != ':')
    ensures FollowedBy(e + rest, k, colons)
  {
    assert (e + rest)[k + 1..k + 1 + |colons|] == e[k + 1..k + 1 + |colons|];
  }

  lemma FollowedAfter(e: string, rest: string, k: nat, j: nat, colons: string)
    requires FollowedBy(rest, k, colons) && j == |e| + k
    ensures FollowedBy(e + rest, j, colons)
  {
    assert (e + rest)[j + 1..j + 1 + |colons|] == rest[k + 1..k + 1 + |colons|];
  }

  /** The arity getopt reads for a letter: 0, 1 (required) or 2 (optional argument). */
  function ArityRead(os: string, c: char): int {
    var k := IndexOf(os, c);
    if At(os, k + 1) != ':' then 0 else if At(os, k + 2) != ':' then 1 else 2
  }

  lemma ArityFromColons(os: string, k: nat, e: Entry)
    requires FollowedBy(os, k, Colons(e))
    ensures At(os, k + 1) == ':' <==> e.hasValue || e.hasOptValue
    ensures e.hasValue && e.hasOptValue <==> At(os, k + 1) == ':' && At(os, k + 2) == ':'
  {
    var colons := Colons(e);
    var part := os[k + 1..k + 1 + |colons|];
    assert |colons| >= 1 ==> part[0] == os[k + 1];
    assert |colons| == 2 ==> part[1] == os[k + 2];
  }

  lemma CompiledIndex(table: seq<Entry>, c: char)
    requires NoColons(table) && c != ':'
    ensures var os := ShortString(table); var t := FindShort(table, c, 0);
      && (IndexOf(os, c) < |os| <==> t < |table|)
      && (t < |table| ==> FollowedBy(os, IndexOf(os, c), Colons(table[t])))
  {
    var rest := ShortFrom(table, 0);
    ShortFromIndex(table, 0, c);
    IndexOfConcat(":", rest, c);
    assert IndexOf(":", c) == 1;
    var t := FindShort(table, c, 0);
    if t < |table| {
      FollowedAfter(":", rest, IndexOf(rest, c), IndexOf(":" + rest, c), Colons(table[t]));
    }
  }

  /** What getopt reads for a letter: it is known exactly when the table has it, and its arity is
      that of the entry find_shortoption returns -- exactly when that entry does not ask for an
      optional value without asking for a value. */
  lemma CompiledLetters(table: seq<Entry>, c: char)
    requires NoColons(table) && c != ':'
    ensures var os := ShortString(table); var t := FindShort(table, c, 0);
      && (IndexOf(os, c) < |os| <==> t < |table|)
      && (t < |table| ==> (ArityRead(os, c) == table[t].HasArg() <==> (table[t].hasOptValue ==> table[t].hasValue)))
  {
    CompiledIndex(table, c);
    var t := FindShort(table, c, 0);
    if t < |table| {
      ArityFromColons(ShortString(table), IndexOf(ShortString(table), c), table[t]);
    }
  }

  /** The letter v of an entry that may have a value, but is not said to have one, must have one. */
  lemma OptionalValueRequired(e: Entry, letters: string)
    requires e == Entry(Some("v"), None, false, true) && letters == ":v:"
    ensures e.HasArg() == 2 && ShortString([e]) == letters && ArityRead(letters, 'v') == 1
  {
    OneLetter(e, 'v');
    assert IndexOf(letters[1..], 'v') == 0;
  }

  lemma OneLetter(e: Entry, c: char)
    requires e.Short() == [c]
    ensures ShortString([e]) == ":" + ([c] + Colons(e))
  {
    var colons := Colons(e);
    assert [c][1..] == "" && Expand("", colons) == "" && Expand([c], colons) == [c] + colons;
    assert ShortFrom([e], 1) == "" && ShortFrom([e], 0) == Expand([c], colons) + "";
  }

  /** The number of letters of the entries from i on. */
  function LettersFrom(table: seq<Entry>, i: nat): nat
    requires i <= |table|
    decreases |table| - i
  {
    if i == |table| then 0 else |table[i].Short()| + LettersFrom(table, i + 1)
  }

  lemma {:induction false} ExpandLength(letters: string, e: Entry)
    ensures |Expand(letters, Colons(e))| <= 3 * |letters|
  {
    if letters != "" {
      ExpandLength(letters[1..], e);
    }
  }

  lemma {:induction false} ShortLength(table: seq<Entry>, i: nat)
    requires i <= |table|
    ensures |ShortFrom(table, i)| <= 3 * LettersFrom(table, i)
    decreases |table| - i
  {
    if i < |table| {
      ExpandLength(table[i].Short(), table[i]);
      ShortLength(table, i + 1);
    }
  }

  /** One letter with its colons. */
  method PutLetter(result: array<char>, res0: nat, c: char, e: Entry) returns (res: nat)
    requires res0 + 1 + |Colons(e)| <= result.Length
    modifies result
    ensures res == res0 + 1 + |Colons(e)| && result[..res] == old(result[..res0]) + ([c] + Colons(e))
  {
    res := res0;
    result[res] := c;
    res := res + 1;
    if e.hasValue {
      result[res] := ':';
      res := res + 1;
    }
    if e.hasOptValue {
      result[res] := ':';
      res := res + 1;
    }
  }

  /** The letters of one entry, each with its colons. */
  method FillLetters(result: array<char>, res0: nat, e: Entry) returns (res: nat)
    requires res0 + |Expand(e.Short(), Colons(e))| <= result.Length
    modifies result
    ensures res == res0 + |Expand(e.Short(), Colons(e))|
    ensures result[..res] == old(result[..res0]) + Expand(e.Short(), Colons(e))
  {
    res := res0;
    var shortopts := e.Short();
    ghost var goal := result[..res0] + Expand(shortopts, Colons(e));
    while shortopts != ""
      invariant res0 <= res && res + |Expand(shortopts, Colons(e))| == |goal| <= result.Length
      invariant result[..res] + Expand(shortopts, Colons(e)) == goal
      decreases |shortopts|
    {
      ghost var before := result[..res];
      ghost var one, rest := [shortopts[0]] + Colons(e), Expand(shortopts[1..], Colons(e));
      Associative(before, one, rest);
      res := PutLetter(result, res, shortopts[0], e);
      shortopts := shortopts[1..];
    }
    NothingLeft(result[..res]);
  }

  lemma NothingLeft(a: string)
    ensures a + "" == a
  {}

  /** The first loop: room for three characters a letter, the leading colon and the terminator. */
  method CountLetters(table: seq<Entry>) returns (len: nat)
    ensures len == 2 + 3 * LettersFrom(table, 0)
  {
    len := 2;
    var i := 0;
    while i < |table|
      invariant i <= |table| && len + 3 * LettersFrom(table, i) == 2 + 3 * LettersFrom(table, 0)
    {
      len := len + 3 * |table[i].Short()|;
      i := i + 1;
    }
  }

  /** The letters written, and those of the entries from i on, are all.  The definition only unfolds where a
      proof mentions Unfold. */
  ghost predicate Writing(done: string, table: seq<Entry>, i: nat, goal: string) {
    forall n {:trigger Unfold(n)} :: Unfold(n) ==> i <= |table| && done + ShortFrom(table, i) == goal
  }

  lemma EntryLetters(table: seq<Entry>, i: nat, next: nat, done: string, goal: string)
    requires i < |table| && next == i + 1 && Writing(done, table, i, goal)
    ensures var e := Expand(table[i].Short(), Colons(table[i]));
            |done| + |e| <= |goal| && Writing(done + e, table, next, goal)
  {
    assert Unfold(0);
    Associative(done, Expand(table[i].Short(), Colons(table[i])), ShortFrom(table, next));
  }

  lemma LastLetters(done: string, table: seq<Entry>, goal: string)
    requires Writing(done, table, |table|, goal)
    ensures done == goal
  {
    assert Unfold(0);
    NothingLeft(done);
  }

  /** alloc_shortoptions: the array is long enough for three characters a letter, and holds the
      compiled letters with their terminator. */
  method AllocShortOptions(table: seq<Entry>) returns (result: array<char>)
    ensures |ShortString(table)| < result.Length
    ensures result[..|ShortString(table)|] == ShortString(table) && result[|ShortString(table)|] == '\0'
  {
    var len := CountLetters(table);
    ShortLength(table, 0);
    result := new char[len](_ => '\0');
    result[0] := ':';
    FillAllLetters(table, result, ShortString(table));
  }

  /** Its second loop. */
  method FillAllLetters(table: seq<Entry>, result: array<char>, ghost goal: string)
    requires 1 <= |goal| < result.Length && Writing(result[..1], table, 0, goal)
    modifies result
    ensures result[..|goal|] == goal && result[|goal|] == '\0'
  {
    var res, i := 1, 0;
    while i < |table|
      invariant i <= |table| && 1 <= res <= |goal| < result.Length && Writing(result[..res], table, i, goal)
    {
      EntryLetters(table, i, i + 1, result[..res], goal);
      res := FillLetters(result, res, table[i]);
      i := i + 1;
    }
    LastLetters(result[..res], table, goal);
    result[res] := '\0';
  }
}
