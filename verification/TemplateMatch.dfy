/** The template matcher `tmatch` and its set test `checkrange` (libxpa/word.c).

    C strings are sequences without '\0'; At reads the terminator past the end. */
module TemplateMatch {
  import opened Common
  import opened Template

  // ---- The glob language -----------------------------------------------------------------

  /** Index of the first ']' at or after i, or |t|. */
  function Close(t: string, i: nat): (k: nat)
    requires i <= |t|
    ensures i <= k <= |t| && (k < |t| ==> t[k] == ']') && forall j :: i <= j < k ==> t[j] != ']'
    decreases |t| - i
  {
    if i == |t| || t[i] == ']' then i else Close(t, i + 1)
  }

  /** c is one of the items of a set body t[i..end]: a character, or a pair lo-hi. */
  predicate InItems(t: string, i: nat, end: nat, c: char)
    requires i <= end <= |t|
    decreases end - i
  {
    if i == end then false
    else if i + 2 < end && t[i + 1] == '-' then t[i] <= c <= t[i + 2] || InItems(t, i + 3, end, c)
    else t[i] == c || InItems(t, i + 1, end, c)
  }

  /** Every '-' that follows an item has an upper end before the bracket closes. */
  predicate ItemsFormed(t: string, i: nat, end: nat)
    requires i <= end <= |t|
    decreases end - i
  {
    if i == end then true
    else if i + 1 < end && t[i + 1] == '-' then i + 2 < end && ItemsFormed(t, i + 3, end)
    else ItemsFormed(t, i + 1, end)
  }

  predicate Negated(t: string, i: nat)
    requires i < |t|
  {
    At(t, i + 1) == '~'
  }

  /** The set that opens at i is closed, and its items are well formed. */
  predicate SetFormed(t: string, i: nat)
    requires i < |t| && t[i] == '['
  {
    var first := if Negated(t, i) then i + 2 else i + 1;
    Close(t, first) < |t| ==> ItemsFormed(t, first, Close(t, first))
  }

  predicate SetMatches(t: string, i: nat, c: char)
    requires i < |t| && t[i] == '['
  {
    var first := if Negated(t, i) then i + 2 else i + 1;
    Close(t, first) < |t| && (InItems(t, first, Close(t, first), c) != Negated(t, i))
  }

  /** Index after the template element at i. */
  function Next(t: string, i: nat): (k: nat)
    requires i < |t|
    ensures i < k <= |t|
  {
    if t[i] == '[' && Close(t, i + 1) < |t| then Close(t, i + 1) + 1 else i + 1
  }

  /** The single-character element at i accepts c. */
  predicate Accepts(t: string, i: nat, c: char)
    requires i < |t|
  {
    if t[i] == '?' then true else if t[i] == '[' then SetMatches(t, i, c) else t[i] == c
  }

  /** s[k..] is in the language of the template t[i..]. */
  predicate Glob(t: string, i: nat, s: string, k: nat)
    requires i <= |t| && k <= |s|
    decreases |s| - k, |t| - i
  {
    if i == |t| then k == |s|
    else if t[i] == '*' then Glob(t, i + 1, s, k) || (k < |s| && Glob(t, i, s, k + 1))
    else k < |s| && Accepts(t, i, s[k]) && Glob(t, Next(t, i), s, k + 1)
  }

  /** Templates of literals, '?', '*' and well-formed sets that are not negated. */
  predicate TemplateFormed(t: string, i: nat)
    requires i <= |t|
    decreases |t| - i
  {
    i == |t| || ((t[i] == '[' ==> SetFormed(t, i) && !Negated(t, i)) && TemplateFormed(t, Next(t, i)))
  }

  /** Equal characters are matched before anything else, so a star or an opening bracket in the string must
      not meet one in the template. */
  predicate Apart(s: string, t: string) { CString(s) && ('*' in s ==> '*' !in t) && ('[' in s ==> '[' !in t) }

  /** Some suffix of s[k..] is in the language of t[j..]. */
  ghost predicate SomeSuffix(t: string, j: nat, s: string, k: nat)
    requires j <= |t|
  {
    exists m :: k <= m <= |s| && Glob(t, j, s, m)
  }

  /** A star matches exactly what follows it, after absorbing any part of the string. */
  lemma {:induction false} StarSplits(t: string, i: nat, s: string, k: nat)
    requires i < |t| && t[i] == '*' && k <= |s|
    ensures Glob(t, i, s, k) <==> SomeSuffix(t, i + 1, s, k)
    decreases |s| - k
  {
    var j := i + 1;
    assert Glob(t, i, s, k) == (Glob(t, j, s, k) || (k < |s| && Glob(t, i, s, k + 1)));
    if k < |s| {
      StarSplits(t, i, s, k + 1);
      if SomeSuffix(t, j, s, k + 1) {
        var m :| k + 1 <= m <= |s| && Glob(t, j, s, m);
        assert k <= m;
      }
      if SomeSuffix(t, j, s, k) && !Glob(t, j, s, k) {
        var m :| k <= m <= |s| && Glob(t, j, s, m);
        assert k + 1 <= m;
      }
    }
  }

  /** The end of the string is in no set. */
  lemma {:induction false} NoTerminator(t: string, i: nat, end: nat)
    requires CString(t) && i <= end <= |t|
    ensures !InItems(t, i, end, '\0')
    decreases end - i
  {
    if i < end {
      if i + 2 < end && t[i + 1] == '-' {
        NoTerminator(t, i + 3, end);
      } else {
        NoTerminator(t, i + 1, end);
      }
    }
  }

  lemma SetNeedsCharacter(t: string, i: nat)
    requires CString(t) && i < |t| && t[i] == '[' && !Negated(t, i)
    ensures !SetMatches(t, i, '\0')
  {
    NoTerminator(t, i + 1, Close(t, i + 1));
  }

  // ---- Written sets ----------------------------------------------------------------------

  /** A text between i and end that is written from items is read as those items. */
  lemma {:induction false} BodyReads(t: string, i: nat, end: nat, items: seq<SetItem>, c: char)
    requires i <= end <= |t| && t[i..end] == Body(items) && NoStrayDash(items)
    ensures ItemsFormed(t, i, end) && (InItems(t, i, end, c) <==> Has(items, c))
    decreases |items|
  {
    if items != [] {
      var w, rest := items[0].Written(), items[1..];
      CutFirst(t, i, end, w, Body(rest));
      assert forall k :: 0 < k < |rest| ==> rest[k] == items[k + 1] && rest[k - 1] == items[k];
      BodyReads(t, i + |w|, end, rest, c);
      HasFirst(items, c);
      if items[0].Single? && rest != [] {
        CutFirst(t, i + 1, end, rest[0].Written(), Body(rest[1..]));
        assert items[1] == rest[0] && t[i + 1] == rest[0].Written()[0];
      }
    }
  }

  lemma CutFirst(t: string, i: nat, end: nat, w: string, rest: string)
    requires i <= end <= |t| && t[i..end] == w + rest
    ensures i + |w| <= end && t[i + |w|..end] == rest && forall k :: 0 <= k < |w| ==> t[i + k] == w[k]
  {
    assert t[i + |w|..end] == t[i..end][|w|..];
    assert forall k :: 0 <= k < |w| ==> t[i + k] == t[i..end][k];
  }

  lemma CloseIs(t: string, i: nat, end: nat)
    requires i <= end < |t| && t[end] == ']' && ']' !in t[i..end]
    ensures Close(t, i) == end
  {
    assert forall k :: i <= k < end ==> t[k] == t[i..end][k - i];
  }

  /** A written set accepts the characters that its items cover, or if it is negated, the others, and ends
      where its text ends. */
  lemma SetReads(t: string, i: nat, negated: bool, items: seq<SetItem>, c: char)
    requires SetAt(t, i, negated, items)
    ensures i < |t| && t[i] == '[' && SetFormed(t, i) && Negated(t, i) == negated
    ensures SetMatches(t, i, c) <==> Has(items, c) != negated
    ensures Next(t, i) == Close(t, i + 1) + 1 == FirstItem(i, negated) + |Body(items)| + 1
  {
    var first := FirstItem(i, negated);
    var body := Body(items);
    var end := first + |body|;
    SetBegins(t, i, negated, items);
    CloseIs(t, first, end);
    ClosedBehindTilde(t, i, first, end);
    BodyReads(t, first, end, items, c);
  }

  lemma SetBegins(t: string, i: nat, negated: bool, items: seq<SetItem>)
    requires SetAt(t, i, negated, items)
    ensures Negated(t, i) == negated
  {
    if !negated && items != [] {
      var w, end := items[0].Written(), i + 1 + |Body(items)|;
      CutFirst(t, i + 1, end, w, Body(items[1..]));
    }
  }

  lemma ClosedBehindTilde(t: string, i: nat, first: nat, end: nat)
    requires first <= end < |t| && Close(t, first) == end
    requires first == i + 1 || (first == i + 2 && t[i + 1] == '~')
    ensures Close(t, i + 1) == end
  {}

  /** Every well-formed set that is closed is written from some items. */
  lemma SetIsWritten(t: string, i: nat) returns (items: seq<SetItem>)
    requires i < |t| && t[i] == '[' && SetFormed(t, i) && Close(t, if Negated(t, i) then i + 2 else i + 1) < |t|
    ensures SetAt(t, i, Negated(t, i), items)
  {
    var negated := Negated(t, i);
    var first := FirstItem(i, negated);
    var end := Close(t, first);
    items := ItemsOf(t, first, end);
    assert first + |Body(items)| == end;
    if items != [] {
      CutFirst(t, first, end, items[0].Written(), Body(items[1..]));
    }
    assert forall k :: 0 <= k < end - first ==> t[first..end][k] == t[first + k];
  }

  lemma {:induction false} ItemsOf(t: string, i: nat, end: nat) returns (items: seq<SetItem>)
    requires i <= end <= |t| && ItemsFormed(t, i, end)
    ensures Body(items) == t[i..end] && NoStrayDash(items)
    decreases end - i
  {
    if i == end {
      items := [];
    } else {
      var range := i + 2 < end && t[i + 1] == '-';
      var first := if range then Range(t[i], t[i + 2]) else Single(t[i]);
      var next := if range then i + 3 else i + 1;
      var rest := ItemsOf(t, next, end);
      items := [first] + rest;
      assert items[1..] == rest && t[i..end] == first.Written() + t[next..end];
      if rest != [] {
        assert rest[0].Written()[0] == Body(rest)[0] == t[next];
      }
      forall k | 0 < k < |items| && items[k - 1].Single?
        ensures items[k].Written()[0] != '-'
      {
        assert k > 1 ==> rest[k - 1] == items[k] && rest[k - 2] == items[k - 1];
      }
    }
  }

  // ---- checkrange ------------------------------------------------------------------------

  /** Returns 1 and moves the pointer past the set exactly when the set accepts c. */
  method CheckRange(t: string, ptr: nat, c: char) returns (ok: bool, ptr': nat)
    requires CString(t) && ptr < |t| && t[ptr] == '[' && SetFormed(t, ptr)
    ensures ok == SetMatches(t, ptr, c)
    ensures ptr' == if ok then Close(t, ptr + 1) + 1 else ptr
    ensures ptr' <= |t|
    ensures forall negated, items :: SetAt(t, ptr, negated, items) ==>
              && (ok <==> Has(items, c) != negated)
              && ptr' == if ok then FirstItem(ptr, negated) + |Body(items)| + 1 else ptr
  {
    forall negated, items | SetAt(t, ptr, negated, items)
      ensures SetMatches(t, ptr, c) <==> Has(items, c) != negated
      ensures Close(t, ptr + 1) == FirstItem(ptr, negated) + |Body(items)|
    {
      SetReads(t, ptr, negated, items, c);
    }
    var tptr := ptr;
    if Close(t, tptr) == |t| {
      return false, ptr;
    }
    var notrange := false;
    if At(t, tptr + 1) == '~' {
      notrange := true;
      tptr := tptr + 1;
    }
    var inrange := false;
    tptr := tptr + 1;
    ghost var first := tptr;
    ghost var end := Close(t, first);
    while At(t, tptr) != ']'
      invariant first <= tptr <= end < |t| && ItemsFormed(t, tptr, end)
      invariant InItems(t, first, end, c) == InItems(t, tptr, end, c)
      decreases end - tptr
    {
      var lorange := At(t, tptr);
      var hirange;
      var next := tptr + 1;
      if At(t, next) != '-' {
        hirange := lorange;
      } else {
        next := next + 1;
        hirange := At(t, next);
        next := next + 1;
      }
      if lorange <= c <= hirange {
        inrange := true;
        break;
      }
      tptr := next;
    }
    if inrange == notrange {
      return false, ptr;
    }
    return true, Close(t, tptr) + 1;
  }

  // ---- Why it is enough to remember the last star ----------------------------------------

  /** The elements from a up to tp are single-character elements that accept s[p..sp] in turn. */
  ghost predicate Reaches(t: string, a: nat, s: string, p: nat, tp: nat, sp: nat)
    requires tp <= |t| && sp <= |s|
    decreases tp - a
  {
    if a >= tp then a == tp && p == sp
    else t[a] != '*' && p < sp && Accepts(t, a, s[p]) && Reaches(t, Next(t, a), s, p + 1, tp, sp)
  }

  lemma {:induction false} ReachesExtend(t: string, a: nat, s: string, p: nat, tp: nat, sp: nat)
    requires tp < |t| && sp < |s| && Reaches(t, a, s, p, tp, sp)
    requires t[tp] != '*' && Accepts(t, tp, s[sp])
    ensures Reaches(t, a, s, p, Next(t, tp), sp + 1)
    decreases tp - a
  {
    if a < tp {
      ReachesExtend(t, Next(t, a), s, p + 1, tp, sp);
    }
  }

  lemma {:induction false} ReachesBounds(t: string, a: nat, s: string, p: nat, tp: nat, sp: nat)
    requires tp <= |t| && sp <= |s| && Reaches(t, a, s, p, tp, sp)
    ensures a <= tp && p <= sp && (p == sp ==> a == tp)
    decreases tp - a
  {
    if a < tp {
      ReachesBounds(t, Next(t, a), s, p + 1, tp, sp);
    }
  }

  /** A matched stretch of single-character elements can be taken off both sides. */
  lemma {:induction false} ReachesGlob(t: string, a: nat, s: string, p: nat, tp: nat, sp: nat)
    requires tp <= |t| && sp <= |s| && Reaches(t, a, s, p, tp, sp)
    ensures a <= |t| && p <= |s| && Glob(t, a, s, p) == Glob(t, tp, s, sp)
    decreases tp - a
  {
    if a < tp {
      ReachesGlob(t, Next(t, a), s, p + 1, tp, sp);
    }
  }

  /** Any later match of the stretch leaves at most as much of the string for what follows. */
  lemma {:induction false} ReachesShift(t: string, a: nat, s: string, p: nat, tp: nat, sp: nat, q: nat)
    requires tp <= |t| && sp <= |s| && Reaches(t, a, s, p, tp, sp) && p <= q <= |s|
    requires a <= |t| && Glob(t, a, s, q)
    ensures p <= sp && q + (sp - p) <= |s| && Glob(t, tp, s, q + (sp - p))
    decreases tp - a
  {
    if a < tp {
      ReachesShift(t, Next(t, a), s, p + 1, tp, sp, q + 1);
    }
  }

  lemma {:induction false} StarMonotone(t: string, i: nat, s: string, k: nat, m: nat)
    requires i < |t| && t[i] == '*' && k <= m <= |s| && Glob(t, i, s, m)
    ensures Glob(t, i, s, k)
    decreases m - k
  {
    if k < m {
      StarMonotone(t, i, s, k + 1, m);
    }
  }

  /** The key step: once the elements between star l and a second star at tp have matched at
      their earliest place, nothing is lost by forgetting the first star. */
  lemma LastStarSuffices(t: string, l: nat, s: string, p: nat, tp: nat, sp: nat)
    requires l < tp < |t| && t[l] == '*' && t[tp] == '*' && p <= sp <= |s|
    requires Reaches(t, l + 1, s, p, tp, sp)
    ensures Glob(t, l, s, p) == Glob(t, tp, s, sp)
  {
    StarSplits(t, l, s, p);
    ReachesGlob(t, l + 1, s, p, tp, sp);
    if Glob(t, l, s, p) {
      var m :| p <= m <= |s| && Glob(t, l + 1, s, m);
      ReachesShift(t, l + 1, s, p, tp, sp, m);
      StarMonotone(t, tp, s, sp, m + (sp - p));
    }
  }

  /** A '?' that meets the end of the string cannot be saved by a longer star. */
  lemma NothingLeft(t: string, l: nat, s: string, p: nat, tp: nat)
    requires l < tp < |t| && t[l] == '*' && t[tp] == '?' && p <= |s|
    requires Reaches(t, l + 1, s, p, tp, |s|)
    ensures !Glob(t, l, s, p)
  {
    StarSplits(t, l, s, p);
    if Glob(t, l, s, p) {
      var m :| p <= m <= |s| && Glob(t, l + 1, s, m);
      ReachesShift(t, l + 1, s, p, tp, |s|, m);
    }
  }

  lemma {:induction false} TrailingStar(t: string, i: nat, s: string, k: nat)
    requires i + 1 == |t| && t[i] == '*' && k <= |s|
    ensures Glob(t, i, s, k)
    decreases |s| - k
  {
    if k < |s| {
      TrailingStar(t, i, s, k + 1);
    }
  }

  // ---- The turns of the loop -------------------------------------------------------------

  /** The variables of tmatch: the positions, the position of the last star (-1 for none), and the first
      character that it has not absorbed. */
  datatype Machine = Machine(tptr: nat, sptr: nat, lastmeta: int, nonabsorbed: nat)

  datatype Turn = Go(m: Machine) | Stop(found: bool)

  const START := Machine(0, 0, -1, 0)

  /** No match here: back to the last star. */
  function Back(m: Machine): Turn {
    if m.lastmeta < 0 then Stop(false) else Go(m.(tptr := m.lastmeta, sptr := m.nonabsorbed))
  }

  /** The first position from k on that the element at i accepts, or |s|. */
  function SkipTo(t: string, i: nat, s: string, k: nat): (k': nat)
    requires i < |t| && k <= |s|
    ensures k <= k' <= |s| && (k' < |s| ==> Accepts(t, i, s[k']))
    decreases |s| - k
  {
    if k == |s| || Accepts(t, i, s[k]) then k else SkipTo(t, i, s, k + 1)
  }

  /** A turn that meets a star. */
  function Absorb(t: string, s: string, star: nat, sp: nat): Turn
    requires star < |t| && sp <= |s|
  {
    var next := star + 1;
    if next == |t| then Stop(true)
    else if t[next] == '?' || t[next] == '*' then Go(Machine(next, sp, star, sp + 1))
    else
      var k := SkipTo(t, next, s, sp);
      if k == |s| then Stop(false)
      else if t[next] == '[' then Go(Machine(Next(t, next), k + 1, star, k + 1))
      else Go(Machine(next, k, star, k + 1))
  }

  /** One turn.  Equal characters come first, then sets, ? and stars. */
  function TurnOf(t: string, s: string, m: Machine): Turn
    requires m.tptr <= |t| && m.sptr <= |s|
  {
    if m.tptr == |t| && m.sptr == |s| then Stop(true)
    else if At(s, m.sptr) == At(t, m.tptr) then Go(m.(sptr := m.sptr + 1, tptr := m.tptr + 1))
    else if m.tptr == |t| then Back(m)
    else if t[m.tptr] == '[' then
      if m.sptr < |s| && SetMatches(t, m.tptr, s[m.sptr]) then Go(m.(tptr := Next(t, m.tptr), sptr := m.sptr + 1))
      else Back(m)
    else if t[m.tptr] == '?' then
      if m.sptr == |s| then Stop(false) else Go(m.(sptr := m.sptr + 1, tptr := m.tptr + 1))
    else if t[m.tptr] == '*' then Absorb(t, s, m.tptr, m.sptr)
    else Back(m)
  }

  /** The search for the first character that the element after a star accepts. */
  method Skip(t: string, i: nat, s: string, sp: nat) returns (k: nat)
    requires CString(s) && CString(t) && i < |t| && sp <= |s| && t[i] != '?' && t[i] != '*'
    requires t[i] == '[' ==> SetFormed(t, i) && !Negated(t, i)
    ensures k == SkipTo(t, i, s, sp)
  {
    k := sp;
    if t[i] == '[' {
      SetNeedsCharacter(t, i);
      var ok, ptr := CheckRange(t, i, At(s, k));
      while !ok
        invariant sp <= k <= |s| && ok == SetMatches(t, i, At(s, k)) && SkipTo(t, i, s, k) == SkipTo(t, i, s, sp)
        decreases |s| - k, !ok
      {
        if At(s, k) == '\0' {
          return;
        }
        k := k + 1;
        ok, ptr := CheckRange(t, i, At(s, k));
      }
    } else {
      while At(s, k) != t[i]
        invariant sp <= k <= |s| && SkipTo(t, i, s, k) == SkipTo(t, i, s, sp)
        decreases |s| - k
      {
        if At(s, k) == '\0' {
          return;
        }
        k := k + 1;
      }
    }
  }

  /** The branch of tmatch for a star. */
  method AbsorbStar(t: string, s: string, star: nat, sp: nat) returns (r: Turn)
    requires CString(s) && CString(t) && star < |t| && sp <= |s| && TemplateFormed(t, star + 1)
    ensures r == Absorb(t, s, star, sp)
  {
    var next := star + 1;
    if At(t, next) == '\0' {
      return Stop(true);
    }
    if t[next] == '?' || t[next] == '*' {
      return Go(Machine(next, sp, star, sp + 1));
    }
    var k := Skip(t, next, s, sp);
    if At(s, k) == '\0' {
      return Stop(false);
    }
    if t[next] == '[' {
      return Go(Machine(Next(t, next), k + 1, star, k + 1));
    }
    return Go(Machine(next, k, star, k + 1));
  }

  /** The body of the loop of tmatch. */
  method OneTurn(t: string, s: string, m: Machine) returns (r: Turn)
    requires CString(s) && CString(t) && m.tptr <= |t| && m.sptr <= |s| && TemplateFormed(t, m.tptr)
    requires m.tptr < |t| || m.sptr < |s|
    ensures r == TurnOf(t, s, m)
  {
    if At(s, m.sptr) == At(t, m.tptr) {
      return Go(m.(sptr := m.sptr + 1, tptr := m.tptr + 1));
    }
    if At(t, m.tptr) == '[' {
      SetNeedsCharacter(t, m.tptr);
      var ok, ptr := CheckRange(t, m.tptr, At(s, m.sptr));
      if !ok {
        return Back(m);
      }
      return Go(m.(tptr := ptr, sptr := m.sptr + 1));
    }
    if At(t, m.tptr) == '?' {
      if At(s, m.sptr) == '\0' {
        return Stop(false);
      }
      return Go(m.(sptr := m.sptr + 1, tptr := m.tptr + 1));
    }
    if At(t, m.tptr) == '*' {
      r := AbsorbStar(t, s, m.tptr, m.sptr);
      return;
    }
    return Back(m);
  }

  // ---- tmatch ----------------------------------------------------------------------------

  /** What the program knows in the middle of the scan. */
  ghost predicate ScanningAt(t: string, s: string, m: Machine) {
    var tp, sp, star, next := m.tptr, m.sptr, m.lastmeta, m.nonabsorbed;
    && tp <= |t| && sp <= |s| && TemplateFormed(t, tp)
    && if star < 0 then
         next == 0 && star == -1 && Glob(t, 0, s, 0) == Glob(t, tp, s, sp)
       else
         && star < |t| && t[star] == '*' && 0 < next <= |s| + 1 && TemplateFormed(t, star)
         && if tp == star then
              sp == next && Glob(t, 0, s, 0) == Glob(t, tp, s, sp)
            else
              && Glob(t, 0, s, 0) == Glob(t, star, s, next - 1)
              && Reaches(t, star + 1, s, next - 1, tp, sp)
              && (next <= |s| || (tp == star + 1 < |t| && (t[tp] == '?' || t[tp] == '*')))
  }

  /** The same.  This definition only unfolds where a proof mentions Unfold. */
  ghost predicate Scanning(t: string, s: string, m: Machine) {
    forall n {:trigger Unfold(n)} :: Unfold(n) ==> ScanningAt(t, s, m)
  }

  lemma ScanningStarts(t: string, s: string)
    requires TemplateFormed(t, 0)
    ensures Scanning(t, s, START)
  {}

  lemma ScanningBounds(t: string, s: string, m: Machine)
    requires Scanning(t, s, m)
    ensures m.tptr <= |t| && m.sptr <= |s| && TemplateFormed(t, m.tptr) && m.lastmeta < |t| && m.nonabsorbed <= |s| + 1
  {
    assert Unfold(0);
  }

  /** A mismatch: without a star the match fails, otherwise the star must absorb one more character. */
  lemma Mismatch(t: string, s: string, m: Machine)
    requires ScanningAt(t, s, m) && !Glob(t, m.tptr, s, m.sptr)
    requires m.tptr < |t| ==> t[m.tptr] != '*' && (m.sptr == |s| ==> t[m.tptr] != '?')
    ensures m.lastmeta < 0 ==> !Glob(t, 0, s, 0)
    ensures m.lastmeta >= 0 ==>
              m.tptr != m.lastmeta && ScanningAt(t, s, m.(tptr := m.lastmeta, sptr := m.nonabsorbed))
  {
    if m.lastmeta >= 0 {
      ReachesBounds(t, m.lastmeta + 1, s, m.nonabsorbed - 1, m.tptr, m.sptr);
      ReachesGlob(t, m.lastmeta + 1, s, m.nonabsorbed - 1, m.tptr, m.sptr);
    }
  }

  /** The state at a star: everything before it can be forgotten. */
  lemma AtStar(t: string, s: string, m: Machine)
    requires ScanningAt(t, s, m) && m.tptr < |t| && t[m.tptr] == '*'
    ensures Glob(t, 0, s, 0) == Glob(t, m.tptr, s, m.sptr) && m.lastmeta <= m.tptr
    ensures m.lastmeta == m.tptr ==> m.sptr == m.nonabsorbed
  {
    if m.lastmeta >= 0 && m.tptr != m.lastmeta {
      ReachesBounds(t, m.lastmeta + 1, s, m.nonabsorbed - 1, m.tptr, m.sptr);
      LastStarSuffices(t, m.lastmeta, s, m.nonabsorbed - 1, m.tptr, m.sptr);
    }
  }

  /** One matched single-character element. */
  lemma StepOver(t: string, s: string, m: Machine)
    requires ScanningAt(t, s, m) && m.tptr < |t| && m.sptr < |s|
    requires t[m.tptr] != '*' && Accepts(t, m.tptr, s[m.sptr])
    ensures ScanningAt(t, s, m.(tptr := Next(t, m.tptr), sptr := m.sptr + 1)) && m.tptr != m.lastmeta
    ensures m.lastmeta >= 0 ==> m.lastmeta < m.tptr
  {
    if m.lastmeta >= 0 {
      ReachesBounds(t, m.lastmeta + 1, s, m.nonabsorbed - 1, m.tptr, m.sptr);
      ReachesExtend(t, m.lastmeta + 1, s, m.nonabsorbed - 1, m.tptr, m.sptr);
    }
  }

  /** A star may skip what the next element does not accept. */
  lemma {:induction false} SkipKeeps(t: string, star: nat, s: string, sp: nat)
    requires star + 1 < |t| && t[star] == '*' && t[star + 1] != '*' && sp <= |s|
    ensures var k := SkipTo(t, star + 1, s, sp);
            Glob(t, star, s, sp) == Glob(t, star, s, k) && (k == |s| ==> !Glob(t, star, s, k))
    decreases |s| - sp
  {
    if sp < |s| && !Accepts(t, star + 1, s[sp]) {
      SkipKeeps(t, star, s, sp + 1);
    }
  }

  /** A star: the match is decided, or it goes on with this star as the last one. */
  lemma AbsorbKeeps(t: string, s: string, star: nat, sp: nat)
    requires star < |t| && t[star] == '*' && sp <= |s| && TemplateFormed(t, star)
    requires Glob(t, 0, s, 0) == Glob(t, star, s, sp)
    ensures var r := Absorb(t, s, star, sp);
            if r.Stop? then r.found == Glob(t, 0, s, 0)
            else ScanningAt(t, s, r.m) && r.m.lastmeta == star < r.m.tptr && r.m.nonabsorbed > sp
  {
    var next := star + 1;
    if next == |t| {
      TrailingStar(t, star, s, sp);
    } else if t[next] != '?' && t[next] != '*' {
      SkipKeeps(t, star, s, sp);
      var k := SkipTo(t, next, s, sp);
      if k < |s| {
        AbsorbedOne(t, s, star, sp, k);
      }
    }
  }

  lemma AbsorbedOne(t: string, s: string, star: nat, sp: nat, k: nat)
    requires star + 1 < |t| && t[star] == '*' && TemplateFormed(t, star) && sp <= k < |s|
    requires t[star + 1] != '*' && Accepts(t, star + 1, s[k]) && Glob(t, 0, s, 0) == Glob(t, star, s, k)
    ensures ScanningAt(t, s, Machine(star + 1, k, star, k + 1))
    ensures ScanningAt(t, s, Machine(Next(t, star + 1), k + 1, star, k + 1))
  {
    StepOver(t, s, Machine(star + 1, k, star, k + 1));
  }

  lemma EqualAccepts(s: string, t: string, sp: nat, tp: nat)
    requires Apart(s, t) && sp < |s| && tp < |t| && s[sp] == t[tp]
    ensures t[tp] != '*' && t[tp] != '[' && Accepts(t, tp, s[sp]) && Next(t, tp) == tp + 1
  {
    assert s[sp] in s && t[tp] in t;
  }

  /** Whether m' is nearer to the end: a later star, more absorbed, or further on. */
  predicate Nearer(t: string, s: string, m: Machine, m': Machine) {
    || m'.lastmeta > m.lastmeta
    || (m'.lastmeta == m.lastmeta && m'.nonabsorbed > m.nonabsorbed)
    || (m'.lastmeta == m.lastmeta && m'.nonabsorbed == m.nonabsorbed && Ahead(t, m') < Ahead(t, m))
  }

  function Ahead(t: string, m: Machine): int { if m.tptr == m.lastmeta then 0 else 1 + |t| - m.tptr }

  /** A turn from m that leads to r is right. */
  ghost predicate Right(t: string, s: string, m: Machine, r: Turn) {
    if r.Stop? then r.found == Glob(t, 0, s, 0) else ScanningAt(t, s, r.m) && Nearer(t, s, m, r.m)
  }

  /** A turn decides the match, or it keeps what the program knows and comes nearer to the end. */
  lemma TurnKeeps(t: string, s: string, m: Machine)
    requires Apart(s, t) && CString(t) && Scanning(t, s, m) && m.tptr <= |t| && m.sptr <= |s|
    ensures var r := TurnOf(t, s, m);
            if r.Stop? then r.found == Glob(t, 0, s, 0) else Scanning(t, s, r.m) && Nearer(t, s, m, r.m)
  {
    assert Unfold(0);
    if m.tptr == |t| && m.sptr == |s| {
      AllMatched(t, s, m);
    } else if m.tptr == |t| || (m.sptr == |s| && t[m.tptr] != '*') {
      EndOfOne(t, s, m);
    } else if t[m.tptr] == '*' {
      StarTurn(t, s, m);
    } else {
      CharacterTurn(t, s, m);
    }
  }

  lemma AllMatched(t: string, s: string, m: Machine)
    requires ScanningAt(t, s, m) && m.tptr == |t| && m.sptr == |s|
    ensures Glob(t, 0, s, 0)
  {
    if m.lastmeta >= 0 {
      ReachesGlob(t, m.lastmeta + 1, s, m.nonabsorbed - 1, m.tptr, m.sptr);
    }
  }

  /** One of the texts has ended. */
  lemma EndOfOne(t: string, s: string, m: Machine)
    requires CString(s) && CString(t) && ScanningAt(t, s, m)
    requires (m.tptr == |t| && m.sptr < |s|) || (m.sptr == |s| && m.tptr < |t| && t[m.tptr] != '*')
    ensures Right(t, s, m, TurnOf(t, s, m))
  {
    if m.tptr < |t| && t[m.tptr] == '?' {
      if m.lastmeta >= 0 {
        ReachesBounds(t, m.lastmeta + 1, s, m.nonabsorbed - 1, m.tptr, m.sptr);
        NothingLeft(t, m.lastmeta, s, m.nonabsorbed - 1, m.tptr);
      }
    } else {
      Mismatch(t, s, m);
    }
  }

  lemma StarTurn(t: string, s: string, m: Machine)
    requires Apart(s, t) && CString(t) && ScanningAt(t, s, m) && m.tptr < |t| && t[m.tptr] == '*'
    ensures Right(t, s, m, TurnOf(t, s, m))
  {
    if m.sptr < |s| && s[m.sptr] == t[m.tptr] {
      EqualAccepts(s, t, m.sptr, m.tptr);
      assert false;
    }
    AtStar(t, s, m);
    AbsorbKeeps(t, s, m.tptr, m.sptr);
  }

  lemma CharacterTurn(t: string, s: string, m: Machine)
    requires Apart(s, t) && ScanningAt(t, s, m) && m.tptr < |t| && m.sptr < |s| && t[m.tptr] != '*'
    ensures Right(t, s, m, TurnOf(t, s, m))
  {
    if s[m.sptr] == t[m.tptr] {
      EqualAccepts(s, t, m.sptr, m.tptr);
    }
    CharacterTurnIs(t, s, m);
    if Accepts(t, m.tptr, s[m.sptr]) {
      StepOver(t, s, m);
    } else {
      Mismatch(t, s, m);
    }
  }

  lemma CharacterTurnIs(t: string, s: string, m: Machine)
    requires m.tptr < |t| && m.sptr < |s| && t[m.tptr] != '*'
    requires s[m.sptr] == t[m.tptr] ==> t[m.tptr] != '['
    ensures TurnOf(t, s, m) == if Accepts(t, m.tptr, s[m.sptr])
                               then Go(m.(tptr := Next(t, m.tptr), sptr := m.sptr + 1)) else Back(m)
  {}

  /** tmatch decides the glob language: for a template written from elements, whether they stand for the
      text. */
  method TMatch(s: string, t: string) returns (found: bool)
    requires Apart(s, t) && CString(t) && TemplateFormed(t, 0)
    ensures found == Glob(t, 0, s, 0)
    ensures forall es :: Renders(es, t) ==> found == StandsFor(es, s)
  {
    RenderedGlob(t, s);
    var m := START;
    ScanningStarts(t, s);
    ScanningBounds(t, s, m);
    while m.tptr < |t| || m.sptr < |s|
      invariant Scanning(t, s, m) && m.tptr <= |t| && m.sptr <= |s| && m.lastmeta < |t| && m.nonabsorbed <= |s| + 1
      decreases |t| - m.lastmeta, |s| + 1 - m.nonabsorbed, Ahead(t, m)
    {
      TurnKeeps(t, s, m);
      ScanningBounds(t, s, m);
      var r := OneTurn(t, s, m);
      if r.Stop? {
        return r.found;
      }
      ScanningBounds(t, s, r.m);
      m := r.m;
    }
    TurnKeeps(t, s, m);
    return true;
  }

  // ---- Written templates -----------------------------------------------------------------

  lemma RenderedGlob(t: string, s: string)
    ensures forall es :: Renders(es, t) ==> Glob(t, 0, s, 0) == StandsFor(es, s)
  {
    forall es | Renders(es, t)
      ensures Glob(t, 0, s, 0) == StandsFor(es, s)
    {
      assert t[0..] == t && s[0..] == s;
      TemplateReads(es, t, 0, s, 0);
      assert StandsAt(t, 0, s, 0, es);
    }
  }

  /** The elements stand at i in the template.  The definition only unfolds where a proof mentions Unfold. */
  ghost predicate RendersAt(es: seq<Element>, t: string, i: nat)
    requires i <= |t|
  {
    forall n {:trigger Unfold(n)} :: Unfold(n) ==> Renders(es, t[i..])
  }

  /** The glob language of a written template is what its elements stand for. */
  lemma {:induction false} TemplateReads(es: seq<Element>, t: string, i: nat, s: string, k: nat)
    requires i <= |t| && k <= |s| && RendersAt(es, t, i)
    ensures StandsAt(t, i, s, k, es)
    decreases |es|
  {
    if es == [] {
      NoElement(t, i, s, k);
    } else {
      var e, rest := es[0], es[1..];
      var next := ElementStands(e, rest, t, i);
      if e.Star? {
        forall m | k <= m <= |s|
          ensures StandsAt(t, next, s, m, rest)
        {
          TemplateReads(rest, t, next, s, m);
        }
        StarStands(t, i, next, s, k, es, rest);
      } else {
        if k < |s| {
          TemplateReads(rest, t, next, s, k + 1);
        }
        CharacterStands(t, i, next, s, k, k + 1, es);
      }
    }
  }

  lemma NoElement(t: string, i: nat, s: string, k: nat)
    requires i <= |t| && k <= |s| && RendersAt([], t, i)
    ensures StandsAt(t, i, s, k, [])
  {
    assert Unfold(0);
  }

  ghost predicate StandsAt(t: string, i: nat, s: string, k: nat, es: seq<Element>)
    requires i <= |t| && k <= |s|
  {
    Glob(t, i, s, k) <==> StandsFor(es, s[k..])
  }

  lemma StarStands(t: string, i: nat, next: nat, s: string, k: nat, es: seq<Element>, rest: seq<Element>)
    requires i < |t| && next == i + 1 && t[i] == '*' && k <= |s| && es == [Star] + rest
    requires forall m :: k <= m <= |s| ==> StandsAt(t, next, s, m, rest)
    ensures StandsAt(t, i, s, k, es)
  {
    var u := s[k..];
    StarSplits(t, i, s, k);
    assert es[1..] == rest;
    if SomeSuffix(t, next, s, k) {
      var m :| k <= m <= |s| && Glob(t, next, s, m);
      assert StandsAt(t, next, s, m, rest) && u[m - k..] == s[m..];
    }
    if StandsFor(es, u) {
      var j :| 0 <= j <= |u| && StandsFor(rest, u[j..]);
      assert StandsAt(t, next, s, k + j, rest) && u[j..] == s[k + j..];
    }
  }

  lemma CharacterStands(t: string, i: nat, next: nat, s: string, k: nat, after: nat, es: seq<Element>)
    requires i < next <= |t| && k <= |s| && after == k + 1 && es != [] && !es[0].Star? && t[i] != '*'
    requires Next(t, i) == next && forall c :: Accepts(t, i, c) <==> es[0].Fits(c)
    requires k < |s| ==> StandsAt(t, next, s, after, es[1..])
    ensures StandsAt(t, i, s, k, es)
  {
    if k < |s| {
      assert s[k..][1..] == s[after..] && s[k..][0] == s[k];
    }
  }

  /** The first element stands at i, and the others behind it. */
  lemma ElementStands(e: Element, rest: seq<Element>, t: string, i: nat) returns (next: nat)
    requires i <= |t| && RendersAt([e] + rest, t, i)
    ensures i < next <= |t| && RendersAt(rest, t, next) && (t[i] == '*' <==> e.Star?)
    ensures if e.Star? then next == i + 1 else next == Next(t, i) && forall c :: Accepts(t, i, c) <==> e.Fits(c)
  {
    assert Unfold(0);
    RendersFirst(e, rest, t[i..], e.Written());
    next := i + |e.Written()|;
    assert t[i..][|e.Written()|..] == t[next..] && t[i..next] == e.Written();
    if !e.Star? {
      forall c
        ensures Accepts(t, i, c) <==> e.Fits(c)
      {
        ElementReads(e, t, i, c);
      }
      ElementReads(e, t, i, 'a');
    }
  }

  lemma RendersFirst(e: Element, rest: seq<Element>, u: string, w: string)
    requires Renders([e] + rest, u) && w == e.Written()
    ensures |w| <= |u| && u[..|w|] == w && Renders(rest, u[|w|..]) && e.Proper()
  {
    var es := [e] + rest;
    assert es[1..] == rest && e in es;
    forall f | f in rest
      ensures f.Proper()
    {
      assert f in es;
    }
  }

  lemma SetStands(t: string, i: nat, end: nat, items: seq<SetItem>)
    requires end == i + 1 + |Body(items)| < |t| && t[i..end + 1] == "[" + (Body(items) + "]")
    requires ReadableSet(false, items)
    ensures SetAt(t, i, false, items)
  {
    var body, v := Body(items), t[i..end + 1];
    InBrackets(v, body);
    assert forall k :: 0 <= k < |v| ==> v[k] == t[i + k];
    SameBody(t, i + 1, end, v, body);
  }

  lemma SameBody(t: string, first: nat, end: nat, v: string, body: string)
    requires first <= end <= |t| && |v| == |body| + 2 && end == first + |body| && v[1..|body| + 1] == body
    requires forall k :: 0 < k <= |body| ==> v[k] == t[first - 1 + k]
    ensures t[first..end] == body
  {
    assert forall k :: 0 <= k < |body| ==> body[k] == v[k + 1];
  }

  lemma InBrackets(v: string, body: string)
    requires v == "[" + (body + "]")
    ensures |v| == |body| + 2 && v[0] == '[' && v[|body| + 1] == ']' && v[1..|body| + 1] == body
  {}

  /** An element accepts the characters that it stands for. */
  lemma ElementReads(e: Element, t: string, i: nat, c: char)
    requires i + |e.Written()| <= |t| && t[i..i + |e.Written()|] == e.Written() && e.Proper() && !e.Star?
    ensures i < |t| && t[i] != '*' && (Accepts(t, i, c) <==> e.Fits(c)) && Next(t, i) == i + |e.Written()|
  {
    assert t[i] == t[i..i + |e.Written()|][0];
    if e.Set? {
      SetStands(t, i, i + 1 + |Body(e.items)|, e.items);
      SetReads(t, i, false, e.items, c);
    }
  }

  /** Every template of literals, ?, * and closed sets is written from elements. */
  lemma TemplateIsWritten(t: string) returns (es: seq<Element>)
    requires TemplateFormed(t, 0) && AllClosed(t, 0)
    ensures Renders(es, t)
  {
    es := WrittenFrom(t, 0);
    assert Unfold(0);
    assert t[0..] == t;
  }

  lemma {:induction false} WrittenFrom(t: string, i: nat) returns (es: seq<Element>)
    requires i <= |t| && TemplateFormed(t, i) && AllClosed(t, i)
    ensures RendersAt(es, t, i)
    decreases |t| - i
  {
    if i == |t| {
      es := [];
    } else {
      var e := FirstElement(t, i);
      var rest := WrittenFrom(t, Next(t, i));
      es := [e] + rest;
      WrittenMore(t, i, Next(t, i), e, rest);
    }
  }

  lemma WrittenMore(t: string, i: nat, next: nat, e: Element, rest: seq<Element>)
    requires i <= next <= |t| && e.Proper() && t[i..next] == e.Written() && RendersAt(rest, t, next)
    ensures RendersAt([e] + rest, t, i)
  {
    assert Unfold(0);
    RendersMore(e, rest, t[i..next], t[next..], [e] + rest);
    assert t[i..] == t[i..next] + t[next..];
  }

  lemma RendersMore(e: Element, rest: seq<Element>, w: string, after: string, es: seq<Element>)
    requires e.Proper() && w == e.Written() && Renders(rest, after) && es == [e] + rest
    ensures Renders(es, w + after)
  {
    assert es[1..] == rest && forall f :: f in es <==> f == e || f in rest;
  }

  ghost predicate AllClosed(t: string, i: nat) { forall k :: i <= k < |t| && t[k] == '[' ==> Close(t, k + 1) < |t| }

  lemma FirstElement(t: string, i: nat) returns (e: Element)
    requires i < |t| && TemplateFormed(t, i) && AllClosed(t, i)
    ensures e.Proper() && t[i..Next(t, i)] == e.Written()
  {
    if t[i] == '[' {
      var items := SetIsWritten(t, i);
      e := SetElement(t, i, items);
    } else {
      e := if t[i] == '*' then Star else if t[i] == '?' then AnyOne else Literal(t[i]);
    }
  }

  lemma SetElement(t: string, i: nat, items: seq<SetItem>) returns (e: Element)
    requires SetAt(t, i, false, items)
    ensures i < |t| && e.Proper() && t[i..Next(t, i)] == e.Written()
  {
    var end := i + 1 + |Body(items)|;
    SetReads(t, i, false, items, 'a');
    e := Set(items);
    ThreeParts(t, i, i + 1, end, end + 1);
  }

  lemma ThreeParts(t: string, i: nat, j: nat, k: nat, l: nat)
    requires i < j <= k < l <= |t| && j == i + 1 && l == k + 1
    ensures t[i..l] == [t[i]] + (t[j..k] + [t[k]])
  {}

  // ---- Stars and brackets in both texts --------------------------------------------------

  /** n turns, as long as the positions are in the texts. */
  function Turns(t: string, s: string, m: Machine, n: nat): Turn {
    if n == 0 then Go(m)
    else
      var r := Turns(t, s, m, n - 1);
      if r.Go? && r.m.tptr <= |t| && r.m.sptr <= |s| then TurnOf(t, s, r.m) else r
  }

  /** The star of the template is used up by a star that the string begins with. */
  lemma StarMeetsStar(s: string, t: string)
    requires s == "*b" && t == "*"
    ensures Turns(t, s, START, 2) == Stop(false) && Glob(t, 0, s, 0)
  {
    assert Turns(t, s, START, 0) == Go(START);
    assert Turns(t, s, START, 1) == Go(Machine(1, 1, -1, 0));
    TrailingStar(t, 0, s, 0);
  }

  /** If the first character not absorbed is a star, and what follows it does not match what follows the star
      of the template, then the program is back where it was after two turns. */
  lemma BackAgain(t: string, s: string, m: Machine, n: Machine)
    requires 0 <= m.lastmeta == m.tptr && m.tptr + 1 < |t| && m.sptr == m.nonabsorbed && m.sptr + 1 < |s|
    requires t[m.tptr] == '*' && s[m.sptr] == '*' && s[m.sptr + 1] != t[m.tptr + 1]
    requires t[m.tptr + 1] != '[' && t[m.tptr + 1] != '?' && t[m.tptr + 1] != '*'
    requires n == m.(sptr := m.sptr + 1, tptr := m.tptr + 1)
    ensures TurnOf(t, s, m) == Go(n) && TurnOf(t, s, n) == Go(m)
  {}

  /** So the scan of the string xa*x for the template *ab never ends. */
  lemma {:induction false} NeverEnds(s: string, t: string, n: nat)
    requires s == "xa*x" && t == "*ab"
    ensures Turns(t, s, START, n).Go?
    ensures n >= 3 ==> Turns(t, s, START, n) == Go(if n % 2 == 1 then Machine(0, 2, 0, 2) else Machine(1, 3, 0, 2))
  {
    if n <= 3 {
      ThreeTurns(s, t);
    } else {
      NeverEnds(s, t, n - 1);
      BackAgain(t, s, Machine(0, 2, 0, 2), Machine(1, 3, 0, 2));
    }
  }

  lemma ThreeTurns(s: string, t: string)
    requires s == "xa*x" && t == "*ab"
    ensures Turns(t, s, START, 0) == Go(START) && Turns(t, s, START, 1) == Go(Machine(1, 1, 0, 2))
    ensures Turns(t, s, START, 2) == Go(Machine(2, 2, 0, 2)) && Turns(t, s, START, 3) == Go(Machine(0, 2, 0, 2))
  {
    assert SkipTo(t, 1, s, 1) == 1 && SkipTo(t, 1, s, 0) == 1;
    assert TurnOf(t, s, START) == Go(Machine(1, 1, 0, 2));
    assert TurnOf(t, s, Machine(1, 1, 0, 2)) == Go(Machine(2, 2, 0, 2));
    assert TurnOf(t, s, Machine(2, 2, 0, 2)) == Go(Machine(0, 2, 0, 2));
  }
}
