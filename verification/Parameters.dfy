/** Parameter strings, key=value,key=(value),..., and what `keyword` takes out of them
    (libxpa/word.c). */
module Parameters {
  import opened Common
  import opened Keyword

  /** key=value, or key=(value). */
  datatype Item = Item(key: string, value: string, wrapped: bool)

  predicate Ordinary(c: char) {
    !IsSpace(c) && !Delimiting(c) && c != '=' && c != '(' && c != ')' && c != '"' && c != '\'' && c != '\0'
  }

  /** A comma or bracket ends a value that is not in parentheses. */
  predicate Delimiting(c: char) { c == ',' || c == '[' || c == ']' }

  predicate IsKey(key: string) { key != "" && forall k :: 0 <= k < |key| ==> Ordinary(key[k]) }

  /** A value that is read back: in parentheses anything but a closing one; and without, no comma or
      bracket, and no opening character or blank in front. */
  predicate Readable(i: Item) {
    && IsKey(i.key)
    && if i.wrapped then forall k :: 0 <= k < |i.value| ==> i.value[k] != ')'
       else
         && (forall k :: 0 <= k < |i.value| ==> !Delimiting(i.value[k]))
         && (i.value != "" ==> !IsSpace(i.value[0]) && Closing(i.value[0]) == '\0')
  }

  /** The key, with an equals sign, stands after a comma or bracket in the value in parentheses. */
  predicate Hides(i: Item, key: string) {
    i.wrapped && exists q :: 0 < q < |i.value| && KeyAt(i.value, key, q)
  }

  /** An item in which the key is not found. */
  predicate Lacks(i: Item, key: string) { Readable(i) && i.key != key && !Hides(i, key) }

  function ValueText(i: Item): string { if i.wrapped then "(" + i.value + ")" else i.value }

  function Written(i: Item): string { i.key + ("=" + ValueText(i)) }

  /** The items separated by commas: those before another one, those after another one, and all. */
  function Before(items: seq<Item>): string {
    if items == [] then "" else Written(items[0]) + ("," + Before(items[1..]))
  }

  function After(items: seq<Item>): string {
    if items == [] then "" else "," + (Written(items[0]) + After(items[1..]))
  }

  function Text(items: seq<Item>): string {
    if items == [] then "" else Written(items[0]) + After(items[1..])
  }

  // ---- Where keys are --------------------------------------------------------------------

  // The facts of this section are kept apart: what stands at a position of a text only unfolds where a
  // proof mentions Unfold, and what a text consists of only where it mentions UnfoldText.

  ghost predicate UnfoldText(n: int) { true }

  /** Whether the key is at p. */
  ghost predicate IsMark(text: string, key: string, p: nat, b: bool) {
    forall n {:trigger Unfold(n)} :: Unfold(n) ==> (b <==> KeyAt(text, key, p))
  }

  lemma MarkOf(text: string, key: string, p: nat)
    ensures IsMark(text, key, p, KeyAt(text, key, p))
  {}

  lemma MarkIs(text: string, key: string, p: nat, b: bool)
    requires IsMark(text, key, p, b)
    ensures b <==> KeyAt(text, key, p)
  {
    assert Unfold(0);
  }

  /** w is the item written out. */
  ghost predicate Spelled(w: string, i: Item) {
    forall n {:trigger UnfoldText(n)} :: UnfoldText(n) ==> w == Written(i)
  }

  /** A key is found at the start of the item that has it. */
  lemma KeyAtStart(i: Item, w: string, rest: string, key: string)
    requires Spelled(w, i) && IsKey(i.key) && IsKey(key)
    ensures IsMark(w + rest, key, 0, key == i.key)
  {
    SpelledParts(i, w, rest);
    KeyBeforeEquals(i.key, ValueText(i) + rest, key);
  }

  lemma SpelledParts(i: Item, w: string, rest: string)
    requires Spelled(w, i)
    ensures w + rest == i.key + ("=" + (ValueText(i) + rest))
  {
    assert UnfoldText(0);
    Associative(i.key, "=" + ValueText(i), rest);
    Associative("=", ValueText(i), rest);
  }

  lemma KeyBeforeEquals(start: string, rest: string, key: string)
    requires IsKey(start) && IsKey(key)
    ensures KeyAt(start + ("=" + rest), key, 0) <==> key == start
  {
    var s := start + ("=" + rest);
    assert forall k :: 0 <= k < |start| ==> s[k] == start[k];
    assert s[|start|] == '=';
    if OccursAt(s, key, 0) {
      assert forall k :: 0 <= k < |key| ==> s[k] == s[0..|key|][k] == key[k];
    }
  }

  /** The characters of an item. */
  lemma WrittenAt(i: Item, w: string, j: nat)
    requires Spelled(w, i) && Readable(i) && j < |w|
    ensures var c, n := w[j], |i.key|;
            if j < n then Ordinary(c)
            else if j == n then c == '='
            else if !i.wrapped then j - n - 1 < |i.value| && c == i.value[j - n - 1]
            else if j == n + 1 then c == '('
            else if j == |w| - 1 then c == ')'
            else j - n - 2 < |i.value| && c == i.value[j - n - 2]
  {
    assert UnfoldText(0);
  }

  lemma WrittenLength(i: Item, w: string)
    requires Spelled(w, i)
    ensures |w| == |i.key| + |i.value| + (if i.wrapped then 3 else 1)
  {
    assert UnfoldText(0);
    assert |"(" + i.value + ")"| == |i.value| + 2;
  }

  /** A key is not found inside an item that does not hide it. */
  lemma NoKeyInside(i: Item, w: string, rest: string, key: string, p: nat)
    requires Spelled(w, i) && Readable(i) && !Hides(i, key) && IsKey(key) && 0 < p <= |w|
    ensures IsMark(w + rest, key, p, false)
  {
    WrittenLength(i, w);
    if !i.wrapped || p <= |i.key| + 2 || p == |w| {
      NoStartAt(i, w, p);
      NoStart(w, rest, key, p);
    } else if p == |w| - 1 {
      WrittenAt(i, w, p);
      CloseIsNoKey(w, rest, key, p);
    } else {
      NotHidden(i, key, p - |i.key| - 2);
      KeyInValue(i, w, rest, key, p - |i.key| - 2, p, false);
    }
  }

  lemma NotHidden(i: Item, key: string, q: nat)
    requires i.wrapped && !Hides(i, key) && 0 < q < |i.value|
    ensures IsMark(i.value, key, q, false)
  {
    assert !KeyAt(i.value, key, q);
  }

  lemma NoStartAt(i: Item, w: string, p: nat)
    requires Spelled(w, i) && Readable(i) && 0 < p <= |w|
    requires !i.wrapped || p <= |i.key| + 2 || p == |w|
    ensures w[p - 1] != ',' && w[p - 1] != '['
  {
    WrittenAt(i, w, p - 1);
  }

  lemma NoStart(w: string, rest: string, key: string, p: nat)
    requires 0 < p <= |w| && w[p - 1] != ',' && w[p - 1] != '['
    ensures IsMark(w + rest, key, p, false)
  {
    assert (w + rest)[p - 1] == w[p - 1];
  }

  lemma CloseIsNoKey(w: string, rest: string, key: string, p: nat)
    requires p < |w| && w[p] == ')' && IsKey(key)
    ensures IsMark(w + rest, key, p, false)
  {
    var s := w + rest;
    assert s[p] == ')';
    if OccursAt(s, key, p) {
      KeyIsOrdinary(s, key, p);
    }
  }

  lemma KeyIsOrdinary(s: string, key: string, p: nat)
    requires IsKey(key) && OccursAt(s, key, p)
    ensures forall j :: p <= j < p + |key| ==> Ordinary(s[j])
  {
    assert forall j :: p <= j < p + |key| ==> s[j] == s[p..p + |key|][j - p];
  }

  /** A key that an item hides is found in it. */
  lemma KeyInValue(i: Item, w: string, rest: string, key: string, q: nat, p: nat, b: bool)
    requires Spelled(w, i) && i.wrapped && IsKey(key) && 0 < q < |i.value| && p == |i.key| + 2 + q
    requires IsMark(i.value, key, q, b)
    ensures IsMark(w + rest, key, p, b)
  {
    var pre := WrappedText(i, w, rest);
    KeyInText(w + rest, pre, i.value, rest, key, q, p, b);
  }

  lemma KeyInText(s: string, pre: string, value: string, rest: string, key: string, q: nat, p: nat, b: bool)
    requires s == pre + (value + (")" + rest)) && IsKey(key) && 0 < q < |value| && p == |pre| + q
    requires IsMark(value, key, q, b)
    ensures IsMark(s, key, p, b)
  {
    MarkIs(value, key, q, b);
    KeyShifted(pre, value + (")" + rest), key, q);
    ValueThenClose(value, rest, key, q);
  }

  lemma WrappedText(i: Item, w: string, rest: string) returns (pre: string)
    requires Spelled(w, i) && i.wrapped
    ensures w + rest == pre + (i.value + (")" + rest)) && |pre| == |i.key| + 2
  {
    assert UnfoldText(0);
    pre := i.key + "=(";
    OpenText(i.key, i.value, rest);
  }

  lemma OpenText(key: string, value: string, rest: string)
    ensures (key + ("=" + ("(" + value + ")"))) + rest == (key + "=(") + (value + (")" + rest))
  {}

  lemma KeyShifted(pre: string, rest: string, key: string, q: nat)
    requires IsKey(key) && q <= |rest| && (q == 0 ==> pre != "" && pre[|pre| - 1] == ',')
    ensures KeyAt(pre + rest, key, |pre| + q) <==> KeyAt(rest, key, q)
  {
    var s, n := pre + rest, |pre|;
    assert s[n..] == rest && (q > 0 ==> s[n + q - 1] == rest[q - 1]);
    OccursAfter(s, n, rest, key, q);
    if q + |key| <= |rest| {
      SkipSpacesAfter(s, n, rest, q + |key|);
      AtAfter(s, n, rest, SkipSpaces(rest, q + |key|));
    }
  }

  lemma ValueThenClose(value: string, rest: string, key: string, q: nat)
    requires IsKey(key) && 0 < q < |value|
    ensures KeyAt(value + (")" + rest), key, q) <==> KeyAt(value, key, q)
  {
    var v := value + (")" + rest);
    assert v[|value|] == ')' && v[q - 1] == value[q - 1];
    if OccursAt(v, key, q) {
      KeyIsOrdinary(v, key, q);
    }
    if q + |key| <= |value| {
      assert v[q..q + |key|] == value[q..q + |key|];
      SkipInValue(value, v, q + |key|);
    }
  }

  lemma {:induction false} SkipInValue(value: string, v: string, i: nat)
    requires |value| < |v| && v[..|value|] == value && v[|value|] == ')' && i <= |value|
    ensures SkipSpaces(v, i) == SkipSpaces(value, i)
    ensures At(v, SkipSpaces(v, i)) == '=' <==> At(value, SkipSpaces(value, i)) == '='
    decreases |value| - i
  {
    if i < |value| {
      assert v[i] == v[..|value|][i];
      SkipInValue(value, v, i + 1);
    }
  }

  /** After an item and a comma, keys are where they are in the rest. */
  lemma KeyAfter(w: string, rest: string, key: string, q: nat, p: nat, b: bool)
    requires IsKey(key) && q <= |rest| && p == |w| + 1 + q && IsMark(rest, key, q, b)
    ensures IsMark(w + ("," + rest), key, p, b)
  {
    MarkIs(rest, key, q, b);
    Associative(w, ",", rest);
    KeyShifted(w + ",", rest, key, q);
  }

  lemma OccursAfter(s: string, n: nat, rest: string, key: string, q: nat)
    requires n <= |s| && s[n..] == rest
    ensures OccursAt(s, key, n + q) <==> OccursAt(rest, key, q)
  {
    if q + |key| <= |rest| {
      assert forall j :: n + q <= j < n + q + |key| ==> s[j] == s[n..][j - n] == rest[j - n];
      assert s[n + q..n + q + |key|] == rest[q..q + |key|];
    }
  }

  lemma AtAfter(s: string, n: nat, rest: string, i: nat)
    requires n <= |s| && s[n..] == rest
    ensures At(s, n + i) == At(rest, i)
  {
    assert i < |rest| ==> s[n + i] == s[n..][i];
  }

  lemma {:induction false} SkipSpacesAfter(s: string, n: nat, rest: string, i: nat)
    requires n <= |s| && s[n..] == rest && i <= |rest|
    ensures SkipSpaces(s, n + i) == n + SkipSpaces(rest, i)
    decreases |rest| - i
  {
    if i < |rest| {
      assert s[n + i] == s[n..][i] == rest[i];
      SkipSpacesAfter(s, n, rest, i + 1);
    }
  }

  // In what follows a is the items before the one with the key, and b is those after it.

  ghost predicate Listed(a: seq<Item>, i: Item) { Readable(i) && forall k :: 0 <= k < |a| ==> Lacks(a[k], i.key) }

  ghost predicate AllLack(items: seq<Item>, key: string) {
    forall n {:trigger UnfoldText(n)} :: UnfoldText(n) ==> forall k :: 0 <= k < |items| ==> Lacks(items[k], key)
  }

  /** An item with another key does not matter. */
  lemma OtherItem(x: Item, w: string, more: string, key: string, p: nat)
    requires Spelled(w, x) && Lacks(x, key) && IsKey(key) && p <= |w|
    ensures IsMark(w + ("," + more), key, p, false)
  {
    if p == 0 {
      KeyAtStart(x, w, "," + more, key);
    } else {
      NoKeyInside(x, w, "," + more, key, p);
    }
  }

  ghost predicate IsBefore(text: string, items: seq<Item>) {
    forall n {:trigger UnfoldText(n)} :: UnfoldText(n) ==> text == Before(items)
  }

  ghost predicate IsText(text: string, items: seq<Item>) {
    forall n {:trigger UnfoldText(n)} :: UnfoldText(n) ==> text == Text(items)
  }

  /** The key of what follows is not found before. */
  lemma {:induction false} FoundAfter(a: seq<Item>, before: string, key: string, tail: string, p: nat)
    requires AllLack(a, key) && IsBefore(before, a) && IsKey(key) && IsMark(tail, key, 0, true) && p <= |before|
    ensures IsMark(before + tail, key, p, p == |before|)
    decreases |a|
  {
    if a == [] {
      NothingBefore(before, tail);
    } else {
      var w, more := BeforeFirst(a, before, key, tail);
      if p <= |w| {
        OtherItem(a[0], w, more + tail, key, p);
      } else {
        var q := p - |w| - 1;
        FoundAfter(a[1..], more, key, tail, q);
        KeyAfter(w, more + tail, key, q, p, q == |more|);
      }
    }
  }

  lemma NothingBefore(before: string, tail: string)
    requires IsBefore(before, [])
    ensures before == "" && before + tail == tail
  {
    assert UnfoldText(0);
  }

  lemma BeforeFirst(a: seq<Item>, before: string, key: string, tail: string) returns (w: string, more: string)
    requires a != [] && IsBefore(before, a) && AllLack(a, key)
    ensures Spelled(w, a[0]) && Lacks(a[0], key) && AllLack(a[1..], key) && IsBefore(more, a[1..])
    ensures before + tail == w + ("," + (more + tail)) && |before| == |w| + 1 + |more|
  {
    assert UnfoldText(0);
    w, more := Written(a[0]), Before(a[1..]);
    BeforeCons(w, more, tail);
  }

  lemma BeforeCons(w: string, more: string, rest: string)
    ensures (w + ("," + more)) + rest == w + ("," + (more + rest))
  {}

  /** No item has the key. */
  lemma {:induction false} NotListed(items: seq<Item>, text: string, key: string, p: nat)
    requires IsKey(key) && AllLack(items, key) && IsText(text, items) && p < |text|
    ensures IsMark(text, key, p, false)
    decreases |items|
  {
    var w, more := TextFirst(items, text);
    FirstLacks(items, key);
    if |items| == 1 {
      NotAlone(items[0], w, key, p);
    } else if p <= |w| {
      OtherItem(items[0], w, more, key, p);
    } else {
      var q := p - |w| - 1;
      NotListed(items[1..], more, key, q);
      KeyAfter(w, more, key, q, p, false);
    }
  }

  lemma FirstLacks(items: seq<Item>, key: string)
    requires items != [] && AllLack(items, key)
    ensures Lacks(items[0], key) && AllLack(items[1..], key)
  {
    assert UnfoldText(0);
  }

  lemma TextFirst(items: seq<Item>, text: string) returns (w: string, more: string)
    requires IsText(text, items) && text != ""
    ensures items != [] && Spelled(w, items[0]) && IsText(more, items[1..])
    ensures text == if |items| == 1 then w + "" else w + ("," + more)
  {
    assert UnfoldText(0);
    w, more := Written(items[0]), Text(items[1..]);
    assert |items| == 1 ==> After(items[1..]) == "";
  }

  lemma NotAlone(x: Item, w: string, key: string, p: nat)
    requires Spelled(w, x) && Lacks(x, key) && IsKey(key) && p <= |w|
    ensures IsMark(w + "", key, p, false)
  {
    if p == 0 {
      KeyAtStart(x, w, "", key);
    } else {
      NoKeyInside(x, w, "", key, p);
    }
  }

  // ---- Values ----------------------------------------------------------------------------
  //
  // These facts about a text only unfold where a proof mentions Unfold, so that a proof that puts
  // them together is not burdened with the parts of the text.

  ghost predicate StartsAt(text: string, key: string, p: nat) {
    forall n {:trigger Unfold(n)} :: Unfold(n) ==> FirstKey(text, key, 0) == p < |text|
  }

  ghost predicate HasSpan(text: string, key: string, p: nat, r: Span) {
    forall n {:trigger Unfold(n)} :: Unfold(n) ==> KeyAt(text, key, p) && SpanAt(text, key, p) == r
  }

  ghost predicate HasSlice(text: string, from: nat, to: nat, value: string) {
    forall n {:trigger Unfold(n)} :: Unfold(n) ==> from <= to <= |text| && text[from..to] == value
  }

  ghost predicate LeavesRest(text: string, p: nat, next: nat, rest: string) {
    forall n {:trigger Unfold(n)} :: Unfold(n) ==> p <= next <= |text| && Without(text, p, next) == rest
  }

  /** What `keyword` takes out of the text, and what is left. */
  ghost predicate Extracts(text: string, key: string, value: string, rest: string) {
    forall n {:trigger Unfold(n)} :: Unfold(n) ==> Extract(text, key) == Extracted(value, rest)
  }

  lemma ExtractsMeans(text: string, key: string, value: string, rest: string)
    requires Extracts(text, key, value, rest)
    ensures Extract(text, key) == Extracted(value, rest)
  {
    assert Unfold(0);
  }

  lemma Combine(text: string, key: string, p: nat, from: nat, to: nat, next: nat, value: string, rest: string)
    requires StartsAt(text, key, p) && HasSpan(text, key, p, Span(from, to, next)) && HasSlice(text, from, to, value)
    requires LeavesRest(text, p, next, rest)
    ensures Extracts(text, key, value, rest)
  {
    assert Unfold(0);
  }

  /** Where the value of an item that stands at p begins. */
  function ValueFrom(i: Item, p: nat): nat { p + |i.key| + (if i.wrapped then 2 else 1) }

  /** The value of an item that is followed by a comma or the end. */
  lemma ItemValue(text: string, i: Item, w: string, p: nat, t: nat, rest: string, from: nat, to: nat, next: nat)
    requires Spelled(w, i) && Readable(i) && t == p + |i.key| + 1 <= |text| && (rest != "" ==> rest[0] == ',')
    requires text[t - 1] == '=' && text[t..] == ValueText(i) + rest && StartsAt(text, i.key, p)
    requires from == ValueFrom(i, p) && to == from + |i.value| && next == p + |w|
    ensures HasSpan(text, i.key, p, Span(from, to, next)) && HasSlice(text, from, to, i.value)
  {
    WrittenLength(i, w);
    ValueIs(text, i, t, rest, from, to, next);
    SpanIs(text, i.key, p, t, from, to, next, i.value);
  }

  lemma ValueIs(text: string, i: Item, t: nat, rest: string, from: nat, to: nat, next: nat)
    requires Readable(i) && t <= |text| && (rest != "" ==> rest[0] == ',') && text[t..] == ValueText(i) + rest
    requires from == t + (if i.wrapped then 1 else 0) && to == from + |i.value|
    requires next == to + (if i.wrapped then 1 else 0)
    ensures SkipSpaces(text, t) == t && to <= |text| && ValueSpan(text, t) == Span(from, to, next)
    ensures text[from..to] == i.value
  {
    if i.wrapped {
      WrappedValue(text, t, i.value, rest);
    } else {
      PlainValue(text, t, i.value, rest);
    }
  }

  lemma SpanIs(text: string, key: string, p: nat, t: nat, from: nat, to: nat, next: nat, value: string)
    requires StartsAt(text, key, p) && t == p + |key| + 1 <= |text| && text[t - 1] == '=' && SkipSpaces(text, t) == t
    requires from <= to <= |text| && ValueSpan(text, t) == Span(from, to, next) && text[from..to] == value
    ensures HasSpan(text, key, p, Span(from, to, next)) && HasSlice(text, from, to, value)
  {
    SpanStarts(text, key, p, t);
  }

  lemma SpanStarts(text: string, key: string, p: nat, t: nat)
    requires StartsAt(text, key, p) && t == p + |key| + 1 <= |text| && text[t - 1] == '=' && SkipSpaces(text, t) == t
    ensures HasSpan(text, key, p, ValueSpan(text, t))
  {
    assert Unfold(0);
    assert SkipSpaces(text, t - 1) == t - 1;
  }

  lemma WrappedValue(text: string, t: nat, value: string, rest: string)
    requires t <= |text| && text[t..] == "(" + value + ")" + rest
    requires forall k :: 0 <= k < |value| ==> value[k] != ')'
    ensures var e := t + 1 + |value|;
            && SkipSpaces(text, t) == t && e < |text| && ValueSpan(text, t) == Span(t + 1, e, e + 1)
            && text[t + 1..e] == value
  {
    var e := t + 1 + |value|;
    WrappedSlice(text, t, value, rest);
    assert FindChar(text, ')', t + 1) == e;
  }

  lemma WrappedSlice(text: string, t: nat, value: string, rest: string)
    requires t <= |text| && text[t..] == "(" + value + ")" + rest
    ensures var e := t + 1 + |value|;
            && e < |text| && text[t] == '(' && text[e] == ')' && text[t + 1..e] == value
            && forall j :: t + 1 <= j < e ==> text[j] == value[j - t - 1]
  {
    var e := t + 1 + |value|;
    assert text[t] == text[t..][0] == '(' && text[e] == text[t..][e - t] == ')';
    assert forall j :: t + 1 <= j < e ==> text[j] == text[t..][j - t] == value[j - t - 1];
  }

  lemma PlainValue(text: string, t: nat, value: string, rest: string)
    requires t <= |text| && text[t..] == value + rest && (rest != "" ==> rest[0] == ',')
    requires forall k :: 0 <= k < |value| ==> !Delimiting(value[k])
    requires value != "" ==> !IsSpace(value[0]) && Closing(value[0]) == '\0'
    ensures var e := t + |value|;
            SkipSpaces(text, t) == t && e <= |text| && ValueSpan(text, t) == Span(t, e, e) && text[t..e] == value
  {
    var e := t + |value|;
    assert forall j :: t <= j < e ==> text[j] == text[t..][j - t] == value[j - t];
    assert e < |text| ==> text[e] == text[t..][|value|] == rest[0];
    PlainEndAt(text, t, e);
  }

  lemma {:induction false} PlainEndAt(text: string, i: nat, end: nat)
    requires i <= end <= |text| && (end < |text| ==> text[end] == ',')
    requires forall j :: i <= j < end ==> !Delimiting(text[j])
    ensures PlainEnd(text, i, 0) == end
    decreases end - i
  {
    if i < end {
      PlainEndAt(text, i + 1, end);
    }
  }

  // ---- Taking out ------------------------------------------------------------------------

  lemma {:induction false} TextSplit(a: seq<Item>, i: Item, b: seq<Item>)
    ensures Text(a + [i] + b) == Before(a) + (Written(i) + After(b))
    decreases |a|
  {
    if a == [] {
      assert a + [i] + b == [i] + b && ([i] + b)[1..] == b;
    } else {
      var tail := a[1..] + [i] + b;
      assert (a + [i] + b)[0] == a[0] && (a + [i] + b)[1..] == tail && tail != [];
      TextSplit(a[1..], i, b);
      assert After(tail) == "," + Text(tail);
      BeforeCons(Written(a[0]), Before(a[1..]), Written(i) + After(b));
    }
  }

  lemma {:induction false} BeforeText(a: seq<Item>)
    requires a != []
    ensures Before(a) == Text(a) + ","
    decreases |a|
  {
    if |a| == 1 {
      assert Before(a[1..]) == "" && After(a[1..]) == "";
    } else {
      BeforeText(a[1..]);
      assert After(a[1..]) == "," + Text(a[1..]);
      BeforeCons(Written(a[0]), Text(a[1..]), ",");
    }
  }

  lemma {:induction false} AfterJoin(a: seq<Item>, b: seq<Item>)
    ensures After(a + b) == After(a) + After(b)
    decreases |a|
  {
    if a == [] {
      assert a + b == b;
    } else {
      assert (a + b)[0] == a[0] && (a + b)[1..] == a[1..] + b;
      AfterJoin(a[1..], b);
      AfterCons(Written(a[0]), After(a[1..]), After(b));
    }
  }

  lemma AfterCons(w: string, more: string, rest: string)
    ensures ("," + (w + more)) + rest == "," + (w + (more + rest))
  {}

  lemma TextJoin(a: seq<Item>, b: seq<Item>)
    requires a != []
    ensures Text(a + b) == Text(a) + After(b)
  {
    assert (a + b)[0] == a[0] && (a + b)[1..] == a[1..] + b;
    AfterJoin(a[1..], b);
    Associative(Written(a[0]), After(a[1..]), After(b));
  }

  ghost predicate IsAfter(text: string, items: seq<Item>) {
    forall n {:trigger UnfoldText(n)} :: UnfoldText(n) ==> text == After(items)
  }

  lemma LeavesThere(a: seq<Item>, b: seq<Item>, pre: string, w: string, post: string, rest: string)
    requires IsBefore(pre, a) && IsAfter(post, b) && IsText(rest, a + b)
    ensures LeavesRest(pre + (w + post), |pre|, |pre| + |w|, rest)
  {
    if a == [] {
      NothingBefore(pre, w + post);
      RestAlone(b, post, rest);
      WithoutFirst(w, post);
    } else {
      var t := RestJoined(a, b, pre, post, rest);
      WithoutComma(t, w, post);
    }
  }

  lemma RestAlone(b: seq<Item>, post: string, rest: string)
    requires IsAfter(post, b) && IsText(rest, [] + b)
    ensures (post != "" ==> post[0] == ',') && rest == if post == "" then "" else post[1..]
  {
    assert UnfoldText(0);
    assert [] + b == b;
    AfterText(b);
    AfterComma(b);
  }

  lemma RestJoined(a: seq<Item>, b: seq<Item>, pre: string, post: string, rest: string) returns (t: string)
    requires a != [] && IsBefore(pre, a) && IsAfter(post, b) && IsText(rest, a + b)
    ensures pre == t + "," && rest == t + post
  {
    assert UnfoldText(0);
    t := Text(a);
    BeforeText(a);
    TextJoin(a, b);
  }

  lemma AfterText(b: seq<Item>)
    ensures Text(b) == if After(b) == "" then "" else After(b)[1..]
  {
    if b != [] {
      assert ("," + Text(b))[1..] == Text(b);
    }
  }

  lemma WithoutComma(pre: string, w: string, post: string)
    ensures LeavesRest((pre + ",") + (w + post), |pre| + 1, |pre| + 1 + |w|, pre + post)
  {
    var text := (pre + ",") + (w + post);
    assert text[|pre|] == ',' && text[..|pre|] == pre && text[|pre| + 1 + |w|..] == post;
  }

  lemma WithoutFirst(w: string, post: string)
    requires post != "" ==> post[0] == ','
    ensures LeavesRest("" + (w + post), 0, |w|, if post == "" then "" else post[1..])
  {
    var text := "" + (w + post);
    assert text == w + post && text[..0] == "" && text[|w|..] == post;
    assert post != "" ==> text[|w|] == ',' && text[|w| + 1..] == post[1..];
  }

  lemma FirstIn(a: seq<Item>, before: string, key: string, tail: string)
    requires AllLack(a, key) && IsBefore(before, a) && IsKey(key) && IsMark(tail, key, 0, true) && tail != ""
    ensures StartsAt(before + tail, key, |before|)
  {
    forall p: nat | p < |before|
      ensures IsMark(before + tail, key, p, false)
    {
      FoundAfter(a, before, key, tail, p);
    }
    FoundAfter(a, before, key, tail, |before|);
    KeyIsFirst(before + tail, key, |before|);
  }

  lemma KeyIsFirst(text: string, key: string, p: nat)
    requires p < |text| && IsMark(text, key, p, true) && forall j :: 0 <= j < p ==> IsMark(text, key, j, false)
    ensures StartsAt(text, key, p)
  {
    MarkIs(text, key, p, true);
    forall j | 0 <= j < p
      ensures !KeyAt(text, key, j)
    {
      MarkIs(text, key, j, false);
    }
  }

  lemma ValueReads(pre: string, i: Item, w: string, post: string, from: nat, to: nat, next: nat)
    requires Readable(i) && Spelled(w, i) && (post != "" ==> post[0] == ',')
    requires StartsAt(pre + (w + post), i.key, |pre|)
    requires from == ValueFrom(i, |pre|) && to == from + |i.value| && next == |pre| + |w|
    ensures var text := pre + (w + post);
            HasSpan(text, i.key, |pre|, Span(from, to, next)) && HasSlice(text, from, to, i.value)
  {
    SpelledParts(i, w, post);
    ValueStarts(pre, i.key, ValueText(i), post, w + post);
    ItemValue(pre + (w + post), i, w, |pre|, |pre| + |i.key| + 1, post, from, to, next);
  }

  lemma ValueStarts(pre: string, key: string, value: string, rest: string, tail: string)
    requires tail == key + ("=" + (value + rest))
    ensures var text, n := pre + tail, |pre| + |key|;
            n < |text| && text[n] == '=' && text[n + 1..] == value + rest
  {
    Associative(pre, key, "=" + (value + rest));
    assert pre + tail == (pre + key) + ("=" + (value + rest));
  }

  /** From a list of items the first one with the key is taken out: its value, as it was written, and
      the list of the others. */
  lemma ExtractsItem(a: seq<Item>, i: Item, b: seq<Item>)
    requires Listed(a, i)
    ensures Extracts(Text(a + [i] + b), i.key, i.value, Text(a + b))
  {
    var text, rest := ExtractsOne(a, i, b);
    TextIs(text, a + [i] + b);
    TextIs(rest, a + b);
  }

  lemma TextIs(text: string, items: seq<Item>)
    requires IsText(text, items)
    ensures text == Text(items)
  {
    assert UnfoldText(0);
  }

  lemma ExtractsOne(a: seq<Item>, i: Item, b: seq<Item>) returns (text: string, rest: string)
    requires Listed(a, i)
    ensures IsText(text, a + [i] + b) && IsText(rest, a + b) && Extracts(text, i.key, i.value, rest)
  {
    var pre, w, post;
    pre, w, post, text, rest := Parts(a, i, b);
    StartsThere(a, i, pre, w, post);
    LeavesThere(a, b, pre, w, post, rest);
    Frame(i, pre, w, post, rest, b);
    ExtractsFramed(text, i, pre, w, post, rest);
  }

  /** The text is the item i between others, and without it the rest is left. */
  ghost predicate Framed(text: string, i: Item, pre: string, w: string, post: string, rest: string) {
    forall n {:trigger UnfoldText(n)} :: UnfoldText(n) ==>
      && text == pre + (w + post) && Spelled(w, i) && (post != "" ==> post[0] == ',')
      && StartsAt(text, i.key, |pre|) && LeavesRest(text, |pre|, |pre| + |w|, rest)
  }

  lemma Parts(a: seq<Item>, i: Item, b: seq<Item>)
    returns (pre: string, w: string, post: string, text: string, rest: string)
    ensures IsBefore(pre, a) && Spelled(w, i) && IsAfter(post, b) && text == pre + (w + post)
    ensures IsText(text, a + [i] + b) && IsText(rest, a + b)
  {
    TextSplit(a, i, b);
    pre, w, post := Before(a), Written(i), After(b);
    text, rest := pre + (w + post), Text(a + b);
  }

  lemma StartsThere(a: seq<Item>, i: Item, pre: string, w: string, post: string)
    requires Listed(a, i) && IsBefore(pre, a) && Spelled(w, i)
    ensures StartsAt(pre + (w + post), i.key, |pre|)
  {
    KeyAtStart(i, w, post, i.key);
    WrittenLength(i, w);
    FirstIn(a, pre, i.key, w + post);
  }

  lemma Frame(i: Item, pre: string, w: string, post: string, rest: string, b: seq<Item>)
    requires Spelled(w, i) && IsAfter(post, b)
    requires StartsAt(pre + (w + post), i.key, |pre|) && LeavesRest(pre + (w + post), |pre|, |pre| + |w|, rest)
    ensures Framed(pre + (w + post), i, pre, w, post, rest)
  {
    assert UnfoldText(0);
    AfterComma(b);
  }

  lemma ExtractsFramed(text: string, i: Item, pre: string, w: string, post: string, rest: string)
    requires Framed(text, i, pre, w, post, rest) && Readable(i)
    ensures Extracts(text, i.key, i.value, rest)
  {
    assert UnfoldText(0);
    ExtractsBetween(pre, i, w, post, rest, |pre| + |w|);
  }

  lemma AfterComma(b: seq<Item>)
    ensures After(b) != "" ==> After(b)[0] == ','
  {}

  lemma ExtractsBetween(pre: string, i: Item, w: string, post: string, rest: string, next: nat)
    requires Readable(i) && Spelled(w, i) && (post != "" ==> post[0] == ',') && next == |pre| + |w|
    requires StartsAt(pre + (w + post), i.key, |pre|) && LeavesRest(pre + (w + post), |pre|, next, rest)
    ensures Extracts(pre + (w + post), i.key, i.value, rest)
  {
    var from, to := ValueFrom(i, |pre|), ValueFrom(i, |pre|) + |i.value|;
    ValueReads(pre, i, w, post, from, to, next);
    Combine(pre + (w + post), i.key, |pre|, from, to, next, i.value, rest);
  }

  /** A key that some item has or hides is found. */
  lemma {:induction false} KeySomewhere(items: seq<Item>, text: string, key: string, k: nat) returns (p: nat)
    requires IsKey(key) && k < |items| && IsText(text, items) && text != "" && !Lacks(items[k], key)
    requires forall j :: 0 <= j < |items| ==> Readable(items[j])
    ensures p <= |text| && IsMark(text, key, p, true)
    decreases |items|
  {
    var w, more := TextFirst(items, text);
    if k == 0 {
      p := KeyInFirst(items[0], w, if |items| == 1 then "" else "," + more, key);
    } else {
      NotEmpty(items[1..], more);
      var q := KeySomewhere(items[1..], more, key, k - 1);
      p := |w| + 1 + q;
      KeyAfter(w, more, key, q, p, true);
    }
  }

  lemma NotEmpty(items: seq<Item>, text: string)
    requires items != [] && IsText(text, items)
    ensures text != ""
  {
    assert UnfoldText(0);
  }

  lemma KeyInFirst(x: Item, w: string, rest: string, key: string) returns (p: nat)
    requires Spelled(w, x) && IsKey(key) && Readable(x) && !Lacks(x, key)
    ensures p <= |w| && IsMark(w + rest, key, p, true)
  {
    WrittenLength(x, w);
    if x.key == key {
      KeyAtStart(x, w, rest, key);
      p := 0;
    } else {
      var q :| 0 < q < |x.value| && KeyAt(x.value, key, q);
      p := |x.key| + 2 + q;
      MarkOf(x.value, key, q);
      KeyInValue(x, w, rest, key, q, p, true);
    }
  }

  /** A key is not found exactly if no item has it and none hides it in its value. */
  lemma ExtractsNothing(items: seq<Item>, key: string)
    requires IsKey(key) && forall k :: 0 <= k < |items| ==> Readable(items[k])
    ensures Extract(Text(items), key) == Missing <==> forall k :: 0 <= k < |items| ==> Lacks(items[k], key)
  {
    var text := Text(items);
    var p := FirstKey(text, key, 0);
    if k :| 0 <= k < |items| && !Lacks(items[k], key) {
      NotEmpty(items, text);
      var q := KeySomewhere(items, text, key, k);
      MarkIs(text, key, q, true);
    } else if p < |text| {
      NotListed(items, text, key, p);
      MarkIs(text, key, p, false);
    }
  }
}
