/** The error table of argtable2 and the distribution of operands over untagged entries
    (libargtable/argtable2.c). */
module Operands {
  import opened Common

  const ARG_ELIMIT := 1
  const ARG_ENOMATCH := 3
  const EMAXCOUNT := 2

  /** An error: its code, the index of the entry it is charged to (-1 for the table end), and the
      argument (empty for a null pointer). */
  datatype Error = Error(code: int, parent: int, argval: string)

  const NO_ERROR := Error(0, -1, "")
  const OVERFLOW := Error(ARG_ELIMIT, -1, "")

  /** struct arg_end.  The ghost log is every error registered so far. */
  class ErrorTable {
    const slots: array<Error>
    var count: nat
    ghost var log: seq<Error>

    constructor (maxcount: nat)
      requires maxcount >= 1
      ensures Valid() && log == [] && fresh(slots) && slots.Length == maxcount
    {
      slots, count, log := new Error[maxcount](_ => NO_ERROR), 0, [];
    }

    /** The table shows all errors while they fit, and otherwise all but the last slot, which then
        says that there were too many. */
    ghost predicate Valid()
      reads this, slots
    {
      && slots.Length >= 1
      && count == (if |log| <= slots.Length then |log| else slots.Length)
      && (forall k :: 0 <= k < |log| && k < slots.Length - 1 ==> slots[k] == log[k])
      && (|log| == slots.Length ==> slots[slots.Length - 1] == log[slots.Length - 1])
      && (|log| > slots.Length ==> slots[slots.Length - 1] == OVERFLOW)
    }

    /** arg_register_error. */
    method Register(e: Error)
      requires Valid()
      modifies this, slots
      ensures Valid() && log == old(log) + [e]
    {
      if count < slots.Length {
        slots[count] := e;
        count := count + 1;
      } else {
        slots[slots.Length - 1] := OVERFLOW;
      }
      log := log + [e];
    }
  }

  // ---- Distribution ----------------------------------------------------------------------

  /** A table entry: tagged entries and entries without a scan function take no operands; `verdict`
      is the code of the scan function for an argument (0: accepted) while there is room. */
  datatype Entry = Entry(tagged: bool, scans: bool, maxcount: nat, verdict: string -> int) {
    predicate Untagged() { !tagged && scans }

    /** scanfn. */
    function Scan(count: nat, arg: string): int { if count == maxcount then EMAXCOUNT else verdict(arg) }
  }

  /** What happens to an operand. */
  datatype Fate = Taken(entry: nat) | Refused(error: Error)

  /** The first entry from t on that takes the operand, or |table|. */
  function FirstTaker(table: seq<Entry>, counts: seq<nat>, t: nat, arg: string): (k: nat)
    requires |counts| == |table| && t <= |table|
    ensures t <= k <= |table| && (k < |table| ==> table[k].Untagged() && table[k].Scan(counts[k], arg) == 0)
    ensures forall j :: t <= j < k && table[j].Untagged() ==> table[j].Scan(counts[j], arg) != 0
    decreases |table| - t
  {
    if t == |table| || (table[t].Untagged() && table[t].Scan(counts[t], arg) == 0) then t
    else FirstTaker(table, counts, t + 1, arg)
  }

  function NoMatch(arg: string): Error { Error(ARG_ENOMATCH, -1, arg) }

  /** The error for an operand that no entry from t on takes: that of the last entry that tried, or
      `last` if none did. */
  function LastRefusal(table: seq<Entry>, counts: seq<nat>, t: nat, arg: string, last: Error): Error
    requires |counts| == |table| && t <= |table|
    decreases |table| - t
  {
    if t == |table| then last
    else if table[t].Untagged() then
      LastRefusal(table, counts, t + 1, arg, Error(table[t].Scan(counts[t], arg), t, arg))
    else LastRefusal(table, counts, t + 1, arg, last)
  }

  function Unmatched(args: seq<string>): (f: seq<Fate>)
    ensures |f| == |args| && forall k :: 0 <= k < |f| ==> f[k].Refused?
  {
    if args == [] then [] else [Refused(NoMatch(args[0]))] + Unmatched(args[1..])
  }

  /** The greedy distribution: each operand goes to the first entry that takes it, starting from the
      entry that took the one before; once no entry does, the rest is refused. */
  function Distribute(table: seq<Entry>, counts: seq<nat>, t: nat, args: seq<string>): (f: seq<Fate>)
    requires |counts| == |table| && t <= |table|
    ensures |f| == |args|
    decreases |args|
  {
    if args == [] then []
    else
      var k := FirstTaker(table, counts, t, args[0]);
      if k < |table| then [Taken(k)] + Distribute(table, counts[k := counts[k] + 1], k, args[1..])
      else [Refused(LastRefusal(table, counts, t, args[0], NoMatch(args[0])))] + Unmatched(args[1..])
  }

  function Errors(f: seq<Fate>): seq<Error> {
    if f == [] then [] else (if f[0].Refused? then [f[0].error] else []) + Errors(f[1..])
  }

  function TakenBy(f: seq<Fate>, e: nat): nat {
    if f == [] then 0 else (if f[0] == Taken(e) then 1 else 0) + TakenBy(f[1..], e)
  }

  predicate Room(table: seq<Entry>, counts: seq<nat>) {
    |counts| == |table| && forall e :: 0 <= e < |table| ==> counts[e] <= table[e].maxcount
  }

  /** Accepting entries are untagged entries from t on and do not go back in table order, and once
      an operand has been refused so are all later ones. */
  ghost predicate Orderly(f: seq<Fate>, table: seq<Entry>, t: nat) {
    && (forall k :: 0 <= k < |f| && f[k].Taken? ==> t <= f[k].entry < |table| && table[f[k].entry].Untagged())
    && (forall k, l :: 0 <= k < l < |f| && f[l].Taken? ==> f[k].Taken? && f[k].entry <= f[l].entry)
  }

  lemma {:induction false} DistributionOrder(table: seq<Entry>, counts: seq<nat>, t: nat, args: seq<string>)
    requires |counts| == |table| && t <= |table|
    ensures Orderly(Distribute(table, counts, t, args), table, t)
    decreases |args|
  {
    if args != [] {
      var k := FirstTaker(table, counts, t, args[0]);
      if k < |table| {
        DistributionOrder(table, counts[k := counts[k] + 1], k, args[1..]);
        OrderlyCons(Taken(k), Distribute(table, counts[k := counts[k] + 1], k, args[1..]), table, t, k);
      } else {
        var u := Unmatched(args[1..]);
        OrderlyCons(Refused(LastRefusal(table, counts, t, args[0], NoMatch(args[0]))), u, table, t, |table|);
      }
    }
  }

  lemma OrderlyCons(x: Fate, f: seq<Fate>, table: seq<Entry>, t: nat, k: nat)
    requires t <= k && Orderly(f, table, k)
    requires if x.Taken? then x.entry == k < |table| && table[k].Untagged()
             else forall l :: 0 <= l < |f| ==> f[l].Refused?
    ensures Orderly([x] + f, table, t)
  {
    assert forall l :: 0 < l <= |f| ==> ([x] + f)[l] == f[l - 1];
  }

  /** No entry takes more than its maximum. */
  lemma {:induction false} DistributionRoom(table: seq<Entry>, counts: seq<nat>, t: nat, args: seq<string>, e: nat)
    requires Room(table, counts) && t <= |table| && e < |table|
    ensures counts[e] + TakenBy(Distribute(table, counts, t, args), e) <= table[e].maxcount
    decreases |args|
  {
    if args != [] {
      var k := FirstTaker(table, counts, t, args[0]);
      if k < |table| {
        DistributionRoom(table, counts[k := counts[k] + 1], k, args[1..], e);
      } else {
        NoneTaken(args[1..], e);
      }
    }
  }

  lemma {:induction false} NoneTaken(args: seq<string>, e: nat)
    ensures TakenBy(Unmatched(args), e) == 0
  {
    if args != [] {
      NoneTaken(args[1..], e);
    }
  }

  /** Whether entry j would refuse operand k, given what the operands before it have gone to. */
  predicate Refuses(table: seq<Entry>, counts: seq<nat>, args: seq<string>, f: seq<Fate>, k: nat, j: nat)
    requires |counts| == |table| && |f| == |args| && k < |args| && j < |table|
  {
    !table[j].Untagged() || table[j].Scan(counts[j] + TakenBy(f[..k], j), args[k]) != 0
  }

  /** Entry j is the last one to try an operand that no entry from there on takes. */
  predicate LastToTry(table: seq<Entry>, from: nat, j: nat) {
    from <= j < |table| && table[j].Untagged() && NoneTries(table, j + 1)
  }

  predicate NoneTries(table: seq<Entry>, from: nat) { forall l :: from <= l < |table| ==> !table[l].Untagged() }

  /** The error is that of the last entry that tried, or, if none did, that there is no match. */
  ghost predicate RefusedBy(table: seq<Entry>, counts: seq<nat>, args: seq<string>, f: seq<Fate>, from: nat, k: nat,
                            e: Error)
    requires |counts| == |table| && |f| == |args| && k < |args|
  {
    && (forall j: nat :: LastToTry(table, from, j) ==>
          e == Error(table[j].Scan(counts[j] + TakenBy(f[..k], j), args[k]), j, args[k]))
    && ((forall j: nat :: !LastToTry(table, from, j)) ==> e == Error(ARG_ENOMATCH, -1, args[k]))
  }

  lemma {:induction false} LastRefusalIs(table: seq<Entry>, counts: seq<nat>, t: nat, arg: string, last: Error)
    requires |counts| == |table| && t <= |table|
    ensures var e := LastRefusal(table, counts, t, arg, last);
            && (forall j: nat :: LastToTry(table, t, j) ==> e == Error(table[j].Scan(counts[j], arg), j, arg))
            && ((forall j: nat :: !LastToTry(table, t, j)) ==> e == last)
    decreases |table| - t
  {
    if t < |table| {
      var last' := if table[t].Untagged() then Error(table[t].Scan(counts[t], arg), t, arg) else last;
      var next := t + 1;
      LastRefusalIs(table, counts, next, arg, last');
      LastFrom(table, t, next);
    }
  }

  lemma LastFrom(table: seq<Entry>, t: nat, next: nat)
    requires t < |table| && next == t + 1
    ensures forall j: nat :: LastToTry(table, t, j) ==> j == t || LastToTry(table, next, j)
    ensures forall j: nat :: LastToTry(table, next, j) ==> LastToTry(table, t, j)
    ensures (forall j: nat :: !LastToTry(table, next, j)) && table[t].Untagged() ==> LastToTry(table, t, t)
    ensures LastToTry(table, t, t) ==> forall j: nat :: !LastToTry(table, next, j)
  {
    if !NoneTries(table, next) {
      var l := LastUntagged(table, next);
    }
  }

  lemma {:induction false} LastUntagged(table: seq<Entry>, t: nat) returns (l: nat)
    requires !NoneTries(table, t)
    ensures LastToTry(table, t, l)
    decreases |table| - t
  {
    if NoneTries(table, t + 1) {
      l := t;
    } else {
      l := LastUntagged(table, t + 1);
    }
  }

  /** Operand k goes to the first entry, from the one that took the operand before it, that does not
      refuse it; it is refused if there is none. */
  ghost predicate FirstFit(table: seq<Entry>, counts: seq<nat>, t: nat, args: seq<string>, f: seq<Fate>, k: nat)
    requires |counts| == |table| && |f| == |args| && k < |args|
  {
    if k > 0 && f[k - 1].Refused? then f[k] == Refused(NoMatch(args[k]))
    else
      var from := if k == 0 then t else f[k - 1].entry;
      var to := if f[k].Taken? then f[k].entry else |table|;
      && to <= |table|
      && (forall j: nat :: from <= j < to ==> Refuses(table, counts, args, f, k, j))
      && (f[k].Taken? ==> from <= to < |table| && !Refuses(table, counts, args, f, k, to))
      && (f[k].Refused? ==> RefusedBy(table, counts, args, f, from, k, f[k].error))
  }

  lemma {:induction false} DistributionFits(table: seq<Entry>, counts: seq<nat>, t: nat, args: seq<string>, k: nat)
    requires |counts| == |table| && t <= |table| && k < |args|
    ensures FirstFit(table, counts, t, args, Distribute(table, counts, t, args), k)
    decreases |args|
  {
    var e := FirstTaker(table, counts, t, args[0]);
    if k == 0 {
      FirstFits(table, counts, t, args);
    } else if e == |table| {
      RefusedFits(table, counts, t, args, k);
    } else {
      var counts' := counts[e := counts[e] + 1];
      DistributionFits(table, counts', e, args[1..], k - 1);
      FitShifts(table, counts, t, args, e, Distribute(table, counts', e, args[1..]), k);
    }
  }

  lemma FirstFits(table: seq<Entry>, counts: seq<nat>, t: nat, args: seq<string>)
    requires |counts| == |table| && t <= |table| && args != []
    ensures FirstFit(table, counts, t, args, Distribute(table, counts, t, args), 0)
  {
    var f := Distribute(table, counts, t, args);
    assert f[..0] == [];
    if f[0].Refused? {
      LastRefusalIs(table, counts, t, args[0], NoMatch(args[0]));
      assert RefusedBy(table, counts, args, f, t, 0, f[0].error);
    }
  }

  lemma RefusedFits(table: seq<Entry>, counts: seq<nat>, t: nat, args: seq<string>, k: nat)
    requires |counts| == |table| && t <= |table| && 0 < k < |args| && FirstTaker(table, counts, t, args[0]) == |table|
    ensures FirstFit(table, counts, t, args, Distribute(table, counts, t, args), k)
  {
    UnmatchedAt(args[1..], k - 1);
    if k > 1 {
      UnmatchedAt(args[1..], k - 2);
    }
  }

  /** After the first operand has been taken by entry e, the others see one more count there. */
  lemma FitShifts(table: seq<Entry>, counts: seq<nat>, t: nat, args: seq<string>, e: nat, f: seq<Fate>, k: nat)
    requires |counts| == |table| && e < |table| && |f| + 1 == |args| && 0 < k < |args|
    requires FirstFit(table, counts[e := counts[e] + 1], e, args[1..], f, k - 1)
    ensures FirstFit(table, counts, t, args, [Taken(e)] + f, k)
  {
    var counts', f' := counts[e := counts[e] + 1], [Taken(e)] + f;
    forall j: nat | j < |table|
      ensures counts[j] + TakenBy(f'[..k], j) == counts'[j] + TakenBy(f[..k - 1], j)
      ensures Refuses(table, counts, args, f', k, j) == Refuses(table, counts', args[1..], f, k - 1, j)
    {
      TakenAfter(e, f, k, j);
    }
    if f[k - 1].Refused? && (k == 1 || f[k - 2].Taken?) {
      var from := if k == 1 then e else f[k - 2].entry;
      assert RefusedBy(table, counts', args[1..], f, from, k - 1, f[k - 1].error);
      assert RefusedBy(table, counts, args, f', from, k, f'[k].error);
    }
  }

  lemma TakenAfter(e: nat, f: seq<Fate>, k: nat, j: nat)
    requires 0 < k <= |f| + 1
    ensures TakenBy(([Taken(e)] + f)[..k], j) == (if e == j then 1 else 0) + TakenBy(f[..k - 1], j)
  {
    assert ([Taken(e)] + f)[..k] == [Taken(e)] + f[..k - 1];
    assert ([Taken(e)] + f[..k - 1])[1..] == f[..k - 1];
  }

  lemma {:induction false} UnmatchedAt(args: seq<string>, k: nat)
    requires k < |args|
    ensures Unmatched(args)[k] == Refused(NoMatch(args[k]))
  {
    if k > 0 {
      UnmatchedAt(args[1..], k - 1);
    }
  }

  // ---- arg_parse_untagged ----------------------------------------------------------------

  /** The entry counts after the fates f. */
  ghost predicate CountsAfter(counts: seq<nat>, f: seq<Fate>, counts': seq<nat>) {
    |counts'| == |counts| && forall e :: 0 <= e < |counts| ==> counts'[e] == counts[e] + TakenBy(f, e)
  }

  // Pending and Progress only unfold where a proof mentions Unfold, so that the loop that keeps them
  // is not burdened with the distribution.

  /** The fates of the operands when the first of them has got as far as entry t, with the tentative
      error `last`. */
  function Fates(table: seq<Entry>, counts: seq<nat>, t: nat, args: seq<string>, last: Error): seq<Fate>
    requires |counts| == |table| && t <= |table| && args != []
  {
    var k := FirstTaker(table, counts, t, args[0]);
    if k < |table| then [Taken(k)] + Distribute(table, counts[k := counts[k] + 1], k, args[1..])
    else [Refused(LastRefusal(table, counts, t, args[0], last))] + Unmatched(args[1..])
  }

  /** What is still to be decided when the scan stands at entry tabindex with the tentative error
      `last` (for the operand at optind). */
  ghost predicate Pending(table: seq<Entry>, counts: seq<nat>, tabindex: nat, args: seq<string>, last: Error,
                          f: seq<Fate>) {
    forall n {:trigger Unfold(n)} :: Unfold(n) ==>
      && |counts| == |table| && tabindex <= |table| && |f| == |args|
      && (args != [] ==> f == Fates(table, counts, tabindex, args, last))
  }

  /** The tentative error, or the one for an operand that no entry has looked at. */
  function Tentative(last: Error, args: seq<string>): Error {
    if last == NO_ERROR && args != [] then NoMatch(args[0]) else last
  }

  lemma SkipEntry(table: seq<Entry>, counts: seq<nat>, t: nat, args: seq<string>, last: Error, f: seq<Fate>)
    requires |counts| == |table| && t < |table| && Pending(table, counts, t, args, last, f)
    requires !table[t].Untagged()
    ensures Pending(table, counts, t + 1, args, last, f)
  {
    if args != [] {
      PassedOver(table, counts, t, args, last, last);
    }
  }

  /** Leaving entry t does not change who takes the operand, or the error if nobody does. */
  lemma PassedOver(table: seq<Entry>, counts: seq<nat>, t: nat, args: seq<string>, last: Error, last': Error)
    requires |counts| == |table| && t < |table| && args != []
    requires !(table[t].Untagged() && table[t].Scan(counts[t], args[0]) == 0)
    requires last' == if table[t].Untagged() then Error(table[t].Scan(counts[t], args[0]), t, args[0]) else last
    ensures Fates(table, counts, t, args, last) == Fates(table, counts, t + 1, args, last')
  {
    assert FirstTaker(table, counts, t, args[0]) == FirstTaker(table, counts, t + 1, args[0]);
    assert LastRefusal(table, counts, t, args[0], last) == LastRefusal(table, counts, t + 1, args[0], last');
  }

  lemma RefuseEntry(table: seq<Entry>, counts: seq<nat>, t: nat, args: seq<string>, last: Error, f: seq<Fate>)
    requires |counts| == |table| && t < |table| && Pending(table, counts, t, args, last, f)
    requires args != [] && table[t].Untagged() && table[t].Scan(counts[t], args[0]) != 0
    ensures Pending(table, counts, t + 1, args, Error(table[t].Scan(counts[t], args[0]), t, args[0]), f)
  {
    PassedOver(table, counts, t, args, last, Error(table[t].Scan(counts[t], args[0]), t, args[0]));
  }

  lemma TakeEntry(table: seq<Entry>, counts: seq<nat>, t: nat, args: seq<string>, last: Error, f: seq<Fate>)
    requires |counts| == |table| && t < |table| && Pending(table, counts, t, args, last, f)
    requires args != [] && table[t].Untagged() && table[t].Scan(counts[t], args[0]) == 0
    ensures f != [] && f == [Taken(t)] + f[1..]
    ensures Pending(table, counts[t := counts[t] + 1], t, args[1..], Tentative(NO_ERROR, args[1..]), f[1..])
  {
    assert Unfold(0);
    assert f[1..] == Distribute(table, counts[t := counts[t] + 1], t, args[1..]);
    StartPending(table, counts[t := counts[t] + 1], t, args[1..]);
  }

  lemma StartPending(table: seq<Entry>, counts: seq<nat>, t: nat, args: seq<string>)
    requires |counts| == |table| && t <= |table|
    ensures Pending(table, counts, t, args, Tentative(NO_ERROR, args), Distribute(table, counts, t, args))
  {}

  /** The operands up to optind have been taken, and those after it still have to be. */
  ghost predicate Progress(whole: seq<Fate>, taken: seq<Fate>, rest: seq<Fate>, counts0: seq<nat>, counts: seq<nat>) {
    forall n {:trigger Unfold(n)} :: Unfold(n) ==>
      whole == taken + rest && Errors(taken) == [] && CountsAfter(counts0, taken, counts)
  }

  lemma NothingTaken(whole: seq<Fate>, counts: seq<nat>)
    ensures Progress(whole, [], whole, counts, counts)
  {
    assert whole == [] + whole;
  }

  lemma TookOne(whole: seq<Fate>, taken: seq<Fate>, rest: seq<Fate>, counts0: seq<nat>, counts: seq<nat>, t: nat)
    requires Progress(whole, taken, [Taken(t)] + rest, counts0, counts) && t < |counts|
    ensures Progress(whole, taken + [Taken(t)], rest, counts0, counts[t := counts[t] + 1])
  {
    assert taken + ([Taken(t)] + rest) == (taken + [Taken(t)]) + rest;
    forall e: nat
      ensures TakenBy(taken + [Taken(t)], e) == TakenBy(taken, e) + (if e == t then 1 else 0)
      ensures Errors(taken + [Taken(t)]) == Errors(taken)
    {
      CountOne(taken, t, e);
    }
  }

  lemma {:induction false} CountOne(f: seq<Fate>, t: nat, e: nat)
    ensures Errors(f + [Taken(t)]) == Errors(f)
    ensures TakenBy(f + [Taken(t)], e) == TakenBy(f, e) + (if e == t then 1 else 0)
  {
    if f != [] {
      CountOne(f[1..], t, e);
      assert (f + [Taken(t)])[1..] == f[1..] + [Taken(t)];
    }
  }

  /** The `count++` of a scan function that accepts. */
  method CountUp(counts: array<nat>, t: nat)
    requires t < counts.Length
    modifies counts
    ensures counts[..] == old(counts[..])[t := old(counts[t]) + 1]
  {
    counts[t] := counts[t] + 1;
  }

  lemma AcceptStep(table: seq<Entry>, counts: seq<nat>, t: nat, argv: seq<string>, i: nat, last: Error,
                   whole: seq<Fate>, taken: seq<Fate>, rest: seq<Fate>, counts0: seq<nat>, counts': seq<nat>)
    returns (args': seq<string>, taken': seq<Fate>, rest': seq<Fate>)
    requires |counts| == |table| && t < |table| && i < |argv| && Pending(table, counts, t, argv[i..], last, rest)
    requires table[t].Untagged() && table[t].Scan(counts[t], argv[i]) == 0
    requires Progress(whole, taken, rest, counts0, counts)
    requires counts' == counts[t := counts[t] + 1]
    ensures args' == argv[i + 1..] && Pending(table, counts', t, args', Tentative(NO_ERROR, args'), rest')
    ensures Progress(whole, taken', rest', counts0, counts')
  {
    TakeEntry(table, counts, t, argv[i..], last, rest);
    TookOne(whole, taken, rest[1..], counts0, counts, t);
    args', taken', rest' := argv[i..][1..], taken + [Taken(t)], rest[1..];
    assert args' == argv[i + 1..];
  }

  /** The operands before position i of argv have been dealt with, and those from there on wait for entry t.  The
      definition only unfolds where a proof mentions Unfold. */
  ghost predicate Underway(table: seq<Entry>, counts0: seq<nat>, whole: seq<Fate>, now: seq<nat>, t: nat,
                           argv: seq<string>, i: nat, last: Error, taken: seq<Fate>, rest: seq<Fate>) {
    forall n {:trigger Unfold(n)} :: Unfold(n) ==>
      && |now| == |table| && i <= |argv| && Pending(table, now, t, argv[i..], Tentative(last, argv[i..]), rest)
      && Progress(whole, taken, rest, counts0, now)
  }

  lemma Starts(table: seq<Entry>, counts: seq<nat>, argv: seq<string>, i: nat, whole: seq<Fate>)
    requires |counts| == |table| && i <= |argv| && whole == Distribute(table, counts, 0, argv[i..])
    ensures Underway(table, counts, whole, counts, 0, argv, i, NO_ERROR, [], whole)
  {
    StartPending(table, counts, 0, argv[i..]);
    NothingTaken(whole, counts);
  }

  lemma Skips(table: seq<Entry>, counts0: seq<nat>, whole: seq<Fate>, now: seq<nat>, t: nat, next: nat,
              argv: seq<string>, i: nat, last: Error, taken: seq<Fate>, rest: seq<Fate>)
    requires t < |table| && next == t + 1 && Underway(table, counts0, whole, now, t, argv, i, last, taken, rest)
    requires !table[t].Untagged()
    ensures Underway(table, counts0, whole, now, next, argv, i, last, taken, rest)
  {
    assert Unfold(0);
    SkipEntry(table, now, t, argv[i..], Tentative(last, argv[i..]), rest);
  }

  lemma Ends(table: seq<Entry>, counts0: seq<nat>, whole: seq<Fate>, now: seq<nat>, t: nat, argv: seq<string>, i: nat,
             last: Error, taken: seq<Fate>, rest: seq<Fate>)
    requires Underway(table, counts0, whole, now, t, argv, i, last, taken, rest) && (t == |table| || i == |argv|)
    ensures i <= |argv| && rest == Leftover(last, argv[i..]) && Progress(whole, taken, rest, counts0, now)
  {
    assert Unfold(0);
    NothingPending(table, now, t, argv[i..], last, rest);
  }

  /** The call of a scan function for the next operand: an operand that is accepted has been dealt with, and
      otherwise the next entry is to try it. */
  method Offer(table: seq<Entry>, counts: array<nat>, argv: seq<string>, i: nat, t: nat, ghost last: Error,
               ghost whole: seq<Fate>, ghost taken: seq<Fate>, ghost rest: seq<Fate>, ghost counts0: seq<nat>,
               ghost now: seq<nat>)
    returns (t': nat, i': nat, last': Error, ghost taken': seq<Fate>, ghost rest': seq<Fate>, ghost now': seq<nat>)
    requires counts.Length == |table| && t < |table| && table[t].Untagged() && i < |argv| && now == counts[..]
    requires Underway(table, counts0, whole, now, t, argv, i, last, taken, rest)
    modifies counts
    ensures (t' == t && i' == i + 1 && last' == NO_ERROR) || (t' == t + 1 && i' == i)
    ensures now' == counts[..] && Underway(table, counts0, whole, now', t', argv, i', last', taken', rest')
  {
    ghost var args := argv[i..];
    assert Unfold(0);
    var errorcode := table[t].Scan(counts[t], argv[i]);
    if errorcode == 0 {
      CountUp(counts, t);
      args, taken', rest' := AcceptStep(table, now, t, argv, i, Tentative(last, args), whole, taken, rest, counts0,
                                        counts[..]);
      t', i', last' := t, i + 1, NO_ERROR;
    } else {
      RefuseEntry(table, now, t, args, Tentative(last, args), rest);
      taken', rest' := taken, rest;
      t', i', last' := t + 1, i, Error(errorcode, t, argv[i]);
    }
    now' := counts[..];
  }

  /** The first loop: scan operands until the table or the operands are exhausted. */
  method Assign(table: seq<Entry>, counts: array<nat>, argv: seq<string>, optind0: nat, ghost whole: seq<Fate>)
    returns (optind: nat, last: Error, ghost taken: seq<Fate>, ghost rest: seq<Fate>)
    requires counts.Length == |table| && optind0 <= |argv|
    requires whole == Distribute(table, counts[..], 0, argv[optind0..])
    modifies counts
    ensures optind0 <= optind <= |argv|
    ensures last != NO_ERROR ==> optind < |argv|
    ensures rest == Leftover(last, argv[optind..])
    ensures Progress(whole, taken, rest, old(counts[..]), counts[..])
  {
    var tabindex: nat := 0;
    optind, last := optind0, NO_ERROR;
    taken, rest := [], whole;
    ghost var counts0, now := counts[..], counts[..];
    Starts(table, now, argv, optind0, whole);
    while tabindex < |table|
      invariant optind0 <= optind <= |argv| && tabindex <= |table| && now == counts[..]
      invariant last != NO_ERROR ==> optind < |argv|
      invariant Underway(table, counts0, whole, now, tabindex, argv, optind, last, taken, rest)
      decreases |table| - tabindex + |argv| - optind
    {
      if optind >= |argv| {
        break;
      }
      if table[tabindex].tagged || !table[tabindex].scans {
        Skips(table, counts0, whole, now, tabindex, tabindex + 1, argv, optind, last, taken, rest);
        tabindex := tabindex + 1;
      } else {
        tabindex, optind, last, taken, rest, now :=
          Offer(table, counts, argv, optind, tabindex, last, whole, taken, rest, counts0, now);
      }
    }
    Ends(table, counts0, whole, now, tabindex, argv, optind, last, taken, rest);
  }

  /** The fates of the operands that are left when the table is exhausted. */
  function Leftover(last: Error, args: seq<string>): seq<Fate> {
    if args == [] then [] else [Refused(Tentative(last, args))] + Unmatched(args[1..])
  }

  lemma NothingPending(table: seq<Entry>, counts: seq<nat>, t: nat, args: seq<string>, last: Error, f: seq<Fate>)
    requires Pending(table, counts, t, args, Tentative(last, args), f)
    requires t == |table| || args == []
    ensures f == Leftover(last, args)
  {
    assert Unfold(0);
  }

  lemma {:induction false} ErrorsJoin(f: seq<Fate>, g: seq<Fate>)
    ensures Errors(f + g) == Errors(f) + Errors(g)
  {
    if f == [] {
      assert f + g == g;
    } else {
      ErrorsJoin(f[1..], g);
      assert (f + g)[1..] == f[1..] + g;
      Associative(if f[0].Refused? then [f[0].error] else [], Errors(f[1..]), Errors(g));
    }
  }

  lemma {:induction false} TakenJoin(f: seq<Fate>, g: seq<Fate>, e: nat)
    ensures TakenBy(f + g, e) == TakenBy(f, e) + TakenBy(g, e)
  {
    if f == [] {
      assert f + g == g;
    } else {
      TakenJoin(f[1..], g, e);
      assert (f + g)[1..] == f[1..] + g;
    }
  }

  lemma LeftoverTakesNothing(last: Error, args: seq<string>, taken: seq<Fate>, whole: seq<Fate>, counts0: seq<nat>,
                             counts: seq<nat>)
    requires Progress(whole, taken, Leftover(last, args), counts0, counts)
    ensures CountsAfter(counts0, whole, counts)
    ensures Errors(whole) == Errors(Leftover(last, args))
  {
    var rest := Leftover(last, args);
    assert Unfold(0);
    ErrorsJoin(taken, rest);
    forall e: nat
      ensures TakenBy(whole, e) == TakenBy(taken, e)
    {
      TakenJoin(taken, rest, e);
      if args != [] {
        NoneTaken(args[1..], e);
      }
    }
  }

  /** Registering the errors of the rest one by one. */
  lemma RegisterNext(log: seq<Error>, args: seq<string>, rest: seq<string>, total: seq<Error>)
    requires args != [] && rest == args[1..] && Registering(log, args, total)
    ensures Registering(log + [NoMatch(args[0])], rest, total)
  {
    assert Unfold(0);
    assert Errors(Unmatched(args)) == [NoMatch(args[0])] + Errors(Unmatched(rest));
  }

  /** The errors in the log, and those of the operands left, are all.  The definition only unfolds where a
      proof mentions Unfold. */
  ghost predicate Registering(log: seq<Error>, args: seq<string>, total: seq<Error>) {
    forall n {:trigger Unfold(n)} :: Unfold(n) ==> log + Errors(Unmatched(args)) == total
  }

  lemma RegisterTentative(log: seq<Error>, last: Error, args: seq<string>)
    requires last != NO_ERROR ==> args != []
    ensures last == NO_ERROR ==> Registering(log, args, log + Errors(Leftover(last, args)))
    ensures last != NO_ERROR ==> Registering(log + [last], args[1..], log + Errors(Leftover(last, args)))
  {
    if args != [] {
      Associative(log, [Tentative(last, args)], Errors(Unmatched(args[1..])));
    }
  }

  lemma AllRegistered(log: seq<Error>, total: seq<Error>)
    requires Registering(log, [], total)
    ensures log == total
  {
    assert Unfold(0);
    assert log + [] == log;
  }

  /** arg_parse_untagged: every operand is consumed; the distribution says which entry counts it or
      with which error it is registered. */
  method ParseUntagged(table: seq<Entry>, counts: array<nat>, argv: seq<string>, optind0: nat, end: ErrorTable)
    returns (optind: nat)
    requires counts.Length == |table| && optind0 <= |argv| && end.Valid()
    modifies counts, end, end.slots
    ensures end.Valid() && optind == |argv|
    ensures var f := Distribute(table, old(counts[..]), 0, argv[optind0..]);
            && end.log == old(end.log) + Errors(f)
            && CountsAfter(old(counts[..]), f, counts[..])
  {
    ghost var whole := Distribute(table, counts[..], 0, argv[optind0..]);
    var last: Error;
    ghost var taken, rest;
    optind, last, taken, rest := Assign(table, counts, argv, optind0, whole);
    LeftoverTakesNothing(last, argv[optind..], taken, whole, old(counts[..]), counts[..]);
    RegisterRest(argv, optind, last, end);
    optind := |argv|;
  }

  /** The second part: the tentative error if there is one, and then one error for each operand that
      is left. */
  method RegisterRest(argv: seq<string>, optind0: nat, last: Error, end: ErrorTable)
    requires optind0 <= |argv| && end.Valid() && (last != NO_ERROR ==> optind0 < |argv|)
    modifies end, end.slots
    ensures end.Valid()
    ensures end.log == old(end.log) + Errors(Leftover(last, argv[optind0..]))
  {
    var optind := optind0;
    ghost var total := old(end.log) + Errors(Leftover(last, argv[optind..]));
    RegisterTentative(end.log, last, argv[optind..]);
    if last != NO_ERROR {
      end.Register(last);
      optind := optind + 1;
      assert argv[optind0..][1..] == argv[optind..];
    }
    while optind < |argv|
      invariant optind <= |argv| && end.Valid() && Registering(end.log, argv[optind..], total)
    {
      RegisterNext(end.log, argv[optind..], argv[optind + 1..], total);
      end.Register(NoMatch(argv[optind]));
      optind := optind + 1;
    }
    AllRegistered(end.log, total);
  }
}
