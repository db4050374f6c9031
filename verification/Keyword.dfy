/** The extractor of keyword=value from a parameter string, `keyword` (libxpa/word.c). */
module Keyword {
  import opened Common

  // ---- Where a keyword is ----------------------------------------------------------------

  predicate OccursAt(text: string, key: string, p: nat) {
    p + |key| <= |text| && text[p..p + |key|] == key
  }

  /** strstr: the first occurrence of key at or after i, or a position past the text. */
  function StrStr(text: string, key: string, i: nat): (p: nat)
    ensures p >= i && (p <= |text| ==> OccursAt(text, key, p))
    ensures forall j :: i <= j < p && j <= |text| ==> !OccursAt(text, key, j)
    decreases |text| - i
  {
    if i > |text| || OccursAt(text, key, i) then i
    else StrStr(text, key, i + 1)
  }

  function SkipSpaces(text: string, i: nat): (k: nat)
    ensures i <= k && (i <= |text| ==> k <= |text|) && (k < |text| ==> !IsSpace(text[k]))
    decreases |text| - i
  {
    if i < |text| && IsSpace(text[i]) then SkipSpaces(text, i + 1) else i
  }

  /** The key at p starts an item and is followed by an equals sign. */
  predicate KeyAt(text: string, key: string, p: nat) {
    && OccursAt(text, key, p)
    && (p == 0 || text[p - 1] == ',' || text[p - 1] == '[')
    && At(text, SkipSpaces(text, p + |key|)) == '='
  }

  /** The first keyword at or after i, or |text|. */
  function FirstKey(text: string, key: string, i: nat): (p: nat)
    requires i <= |text|
    ensures i <= p <= |text| && (p < |text| ==> KeyAt(text, key, p))
    ensures forall j :: i <= j < p ==> !KeyAt(text, key, j)
    decreases |text| - i
  {
    if i == |text| || KeyAt(text, key, i) then i else FirstKey(text, key, i + 1)
  }

  // ---- Where its value is ----------------------------------------------------------------

  /** The closing character for a value that opens with c, or the terminator for a plain value. */
  function Closing(c: char): char {
    if c == '"' || c == '\'' then c else if c == '(' then ')' else if c == '[' then ']' else '\0'
  }

  function FindChar(text: string, c: char, i: nat): (k: nat)
    requires i <= |text|
    ensures i <= k <= |text| && (k < |text| ==> text[k] == c) && forall j :: i <= j < k ==> text[j] != c
    decreases |text| - i
  {
    if i == |text| || text[i] == c then i else FindChar(text, c, i + 1)
  }

  /** A plain value ends at a comma or a closing bracket outside of brackets. */
  function PlainEnd(text: string, i: nat, level: int): (k: nat)
    requires i <= |text|
    ensures i <= k <= |text|
    decreases |text| - i
  {
    if i == |text| || (level == 0 && (text[i] == ',' || text[i] == ']')) then i
    else PlainEnd(text, i + 1, if text[i] == '[' then level + 1 else if text[i] == ']' then level - 1 else level)
  }

  /** The value is text[from..to], and the rest of the text goes on at next. */
  datatype Span = Span(from: nat, to: nat, next: nat)

  /** The value that starts at t. */
  function ValueSpan(text: string, t: nat): (r: Span)
    requires t <= |text|
    ensures r.from <= r.to <= r.next <= |text| && t <= r.from
  {
    var close := Closing(At(text, t));
    if close == '\0' then
      var e := PlainEnd(text, t, 0);
      Span(t, e, e)
    else
      var e := FindChar(text, close, t + 1);
      Span(t + 1, e, if e < |text| then e + 1 else e)
  }

  /** The span of the keyword at p, from after the equals sign. */
  function SpanAt(text: string, key: string, p: nat): (r: Span)
    requires KeyAt(text, key, p)
    ensures p < r.from <= r.to <= r.next <= |text|
  {
    ValueSpan(text, SkipSpaces(text, SkipSpaces(text, p + |key|) + 1))
  }

  /** The text without the keyword at p, and without the comma before it, or else the one after it. */
  function Without(text: string, p: nat, next: nat): string
    requires p <= next <= |text|
  {
    if p > 0 && text[p - 1] == ',' then text[..p - 1] + text[next..]
    else if At(text, next) == ',' then text[..p] + text[next + 1..]
    else text[..p] + text[next..]
  }

  /** What `keyword` finds: the value and the text that is left. */
  datatype Extraction = Missing | Extracted(value: string, rest: string)

  function Extract(text: string, key: string): Extraction {
    var p := FirstKey(text, key, 0);
    if p == |text| then Missing else TakenOut(text, p, SpanAt(text, key, p))
  }

  function TakenOut(text: string, p: nat, r: Span): Extraction
    requires p < r.from <= r.to <= r.next <= |text|
  {
    Extracted(text[r.from..r.to], Without(text, p, r.next))
  }

  // ---- The algorithm ---------------------------------------------------------------------

  /** The buffer holds the text as a C string. */
  ghost predicate Holds(buf: seq<char>, text: string) {
    '\0' !in text && |text| < |buf| && buf[..|text|] == text && buf[|text|] == '\0'
  }

  lemma HoldsAt(buf: seq<char>, text: string, i: nat)
    requires Holds(buf, text) && i <= |text|
    ensures buf[i] == At(text, i) && (buf[i] == '\0' <==> i == |text|)
  {
    assert i < |text| ==> buf[i] == buf[..|text|][i];
  }

  method ScanSpaces(ibuf: array<char>, i: nat, ghost text: string) returns (t: nat)
    requires Holds(ibuf[..], text) && i <= |text|
    ensures t == SkipSpaces(text, i)
  {
    t := i;
    HoldsAt(ibuf[..], text, t);
    while IsSpace(ibuf[t])
      invariant i <= t <= |text| && SkipSpaces(text, i) == SkipSpaces(text, t) && ibuf[t] == At(text, t)
      decreases |text| - t
    {
      t := t + 1;
      HoldsAt(ibuf[..], text, t);
    }
  }

  /** The value that starts at t0: from u to v, with t past its closing character. */
  method ScanValue(ibuf: array<char>, t0: nat, ghost text: string) returns (u: nat, v: nat, t: nat)
    requires Holds(ibuf[..], text) && t0 <= |text|
    ensures Span(u, v, t) == ValueSpan(text, t0)
  {
    HoldsAt(ibuf[..], text, t0);
    u, v, t := t0, t0, t0;
    if ibuf[t] == '"' || ibuf[t] == '\'' || ibuf[t] == '(' || ibuf[t] == '[' {
      var quote := Closing(ibuf[t]);
      t, u, v := t + 1, u + 1, v + 1;
      HoldsAt(ibuf[..], text, t);
      while ibuf[t] != '\0' && ibuf[t] != quote
        invariant t0 < t == v <= |text| && ibuf[t] == At(text, t) && (ibuf[t] == '\0' <==> t == |text|)
        invariant FindChar(text, quote, t0 + 1) == FindChar(text, quote, t)
        decreases |text| - t
      {
        t, v := t + 1, v + 1;
        HoldsAt(ibuf[..], text, t);
      }
      if ibuf[t] == quote {
        t := t + 1;
      }
    } else {
      var qlev := 0;
      while ibuf[t] != '\0' && (qlev != 0 || ibuf[t] != ',') && (qlev != 0 || ibuf[t] != ']')
        invariant t0 <= t == v <= |text| && ibuf[t] == At(text, t) && (ibuf[t] == '\0' <==> t == |text|)
        invariant PlainEnd(text, t0, 0) == PlainEnd(text, t, qlev)
        decreases |text| - t
      {
        if ibuf[t] == '[' {
          qlev := qlev + 1;
        } else if ibuf[t] == ']' {
          qlev := qlev - 1;
        }
        t, v := t + 1, v + 1;
        HoldsAt(ibuf[..], text, t);
      }
    }
  }

  /** strlen. */
  method StrLen(ibuf: array<char>, ghost text: string) returns (n: nat)
    requires Holds(ibuf[..], text)
    ensures n == |text|
  {
    n := 0;
    HoldsAt(ibuf[..], text, 0);
    while ibuf[n] != '\0'
      invariant n <= |text| && (ibuf[n] == '\0' <==> n == |text|)
      decreases |text| - n
    {
      n := n + 1;
      HoldsAt(ibuf[..], text, n);
    }
  }

  /** memmove of the text from t on, with its terminator, to s. */
  method MoveDown(ibuf: array<char>, s: nat, t: nat, n: nat, ghost text: string)
    requires Holds(ibuf[..], text) && s <= t <= n == |text|
    modifies ibuf
    ensures Holds(ibuf[..], text[..s] + text[t..])
  {
    ghost var before := ibuf[..];
    for i := 0 to n + 1 - t
      invariant ibuf[..s] == before[..s] && ibuf[s..s + i] == before[t..t + i]
      invariant forall k :: s + i <= k < ibuf.Length ==> ibuf[k] == before[k]
    {
      ibuf[s + i] := ibuf[t + i];
    }
    MovedHolds(before, ibuf[..], s, t, text);
  }

  lemma MovedHolds(before: seq<char>, after: seq<char>, s: nat, t: nat, text: string)
    requires Holds(before, text) && s <= t <= |text| && |after| == |before|
    requires after[..s] == before[..s] && after[s..s + (|text| + 1 - t)] == before[t..|text| + 1]
    ensures Holds(after, text[..s] + text[t..])
  {
    var rest := text[..s] + text[t..];
    forall k | 0 <= k <= |rest|
      ensures after[k] == At(rest, k)
    {
      if k < s {
        assert after[k] == after[..s][k] && before[..|text|][k] == text[k];
      } else {
        assert after[k] == after[s..s + (|text| + 1 - t)][k - s] == before[t..|text| + 1][k - s] == before[t + k - s];
        HoldsAt(before, text, t + k - s);
      }
    }
    assert after[..|rest|] == rest;
  }

  /** Removing the keyword at s, whose value ends before t. */
  method Remove(ibuf: array<char>, s: nat, t: nat, n: nat, ghost text: string)
    requires Holds(ibuf[..], text) && s <= t <= n == |text|
    modifies ibuf
    ensures Holds(ibuf[..], Without(text, s, t))
  {
    HoldsAt(ibuf[..], text, t);
    var from, to := s, t;
    if s > 0 {
      HoldsAt(ibuf[..], text, s - 1);
    }
    if s > 0 && ibuf[s - 1] == ',' {
      from := s - 1;
    } else if ibuf[t] == ',' {
      to := t + 1;
    }
    MoveDown(ibuf, from, to, n, text);
  }

  /** As much of the value as a buffer of maxlen characters holds. */
  predicate Fits(obuf: string, value: string, maxlen: nat) {
    obuf <= value && |obuf| == if |value| < maxlen then |value| else maxlen - 1
  }

  /** strstr on the buffer. */
  method NextOccurrence(ibuf: array<char>, key: string, iptr: nat, n: nat, ghost text: string) returns (s: nat)
    requires Holds(ibuf[..], text) && iptr <= n == |text|
    ensures s >= iptr && (s < n ==> OccursAt(text, key, s))
    ensures FirstKey(text, key, iptr) == FirstKey(text, key, if s < n then s else n)
  {
    s := StrStr(ibuf[..n], key, iptr);
    NoKeyBefore(text, key, iptr, if s < n then s else n);
  }

  /** The search for the first occurrence that passes the checks. */
  method FindKey(ibuf: array<char>, key: string, n: nat, ghost text: string) returns (found: bool, s: nat, t: nat)
    requires Holds(ibuf[..], text) && n == |text|
    ensures found == (FirstKey(text, key, 0) < |text|)
    ensures found ==> s == FirstKey(text, key, 0) && t == SkipSpaces(text, SkipSpaces(text, s + |key|) + 1) <= |text|
  {
    found, s, t := false, 0, 0;
    var iptr := 0;
    while iptr < n
      invariant iptr <= n && FirstKey(text, key, 0) == FirstKey(text, key, iptr)
    {
      s := NextOccurrence(ibuf, key, iptr, n, text);
      if s >= n {
        return;
      }
      found, t := StartsValue(ibuf, key, s, text);
      if found {
        return;
      }
      iptr := s + 1;
    }
  }

  /** keyword: the value is copied, as far as there is room, and taken out of the buffer together with
      its key; the result is the length that was copied. */
  method KeywordOf(ibuf: array<char>, key: string, maxlen: nat, ghost text: string) returns (len: nat, obuf: string)
    requires Holds(ibuf[..], text) && maxlen > 0
    modifies ibuf
    ensures match Extract(text, key)
            case Missing => len == 0 && obuf == "" && Holds(ibuf[..], text)
            case Extracted(value, rest) => Fits(obuf, value, maxlen) && len == |obuf| && Holds(ibuf[..], rest)
  {
    var n := StrLen(ibuf, text);
    var found, s, t := FindKey(ibuf, key, n, text);
    if !found {
      return 0, "";
    }
    var u, v, next := ScanValue(ibuf, t, text);
    assert Span(u, v, next) == SpanAt(text, key, s);
    len, obuf := TakeOut(ibuf, s, u, v, next, maxlen, n, text);
  }

  method TakeOut(ibuf: array<char>, s: nat, u: nat, v: nat, next: nat, maxlen: nat, n: nat, ghost text: string)
    returns (len: nat, obuf: string)
    requires Holds(ibuf[..], text) && maxlen > 0 && s < u <= v <= next <= n == |text|
    modifies ibuf
    ensures var x := TakenOut(text, s, Span(u, v, next));
            Fits(obuf, x.value, maxlen) && len == |obuf| && Holds(ibuf[..], x.rest)
  {
    len := if v - u < maxlen - 1 then v - u else maxlen - 1;
    obuf := ibuf[u..u + len];
    assert obuf == ibuf[..n][u..v][..len];
    Remove(ibuf, s, next, n, text);
  }

  /** The checks on an occurrence of the key; if they succeed the value starts at t. */
  method StartsValue(ibuf: array<char>, key: string, s: nat, ghost text: string) returns (ok: bool, t: nat)
    requires Holds(ibuf[..], text) && s < |text| && OccursAt(text, key, s)
    ensures ok == KeyAt(text, key, s)
    ensures ok ==> t == SkipSpaces(text, SkipSpaces(text, s + |key|) + 1) <= |text|
  {
    t := 0;
    if s > 0 {
      HoldsAt(ibuf[..], text, s - 1);
    }
    if s != 0 && ibuf[s - 1] != ',' && ibuf[s - 1] != '[' {
      return false, t;
    }
    t := ScanSpaces(ibuf, s + |key|, text);
    HoldsAt(ibuf[..], text, t);
    if ibuf[t] != '=' {
      return false, t;
    }
    t := ScanSpaces(ibuf, t + 1, text);
    return true, t;
  }

  lemma {:induction false} NoKeyBefore(text: string, key: string, i: nat, s: nat)
    requires i <= s <= |text| && forall j :: i <= j < s ==> !OccursAt(text, key, j)
    ensures FirstKey(text, key, i) == FirstKey(text, key, s)
    decreases s - i
  {
    if i < s {
      NoKeyBefore(text, key, i + 1, s);
    }
  }
}
