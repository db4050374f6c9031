/** What the keyword extractor makes of values as they are written: in brackets, in quotes, and plain
    (libxpa/word.c). */
module KeywordValues {
  import opened Common
  import opened Keyword

  predicate Blanks(s: string) { forall k :: 0 <= k < |s| ==> IsSpace(s[k]) }

  lemma {:induction false} SkipsBlanks(text: string, i: nat, k: nat)
    requires i <= k <= |text| && Blanks(text[i..k]) && (k < |text| ==> !IsSpace(text[k]))
    ensures SkipSpaces(text, i) == k
    decreases k - i
  {
    if i < k {
      assert text[i] == text[i..k][0] && text[i + 1..k] == text[i..k][1..];
      SkipsBlanks(text, i + 1, k);
    }
  }

  /** The closing character that belongs to an opening one. */
  predicate Wraps(open: char, close: char) {
    (open == '(' && close == ')') || (open == '[' && close == ']') || (open == '"' && close == '"')
    || (open == '\'' && close == '\'')
  }

  /** The key, an equals sign with blanks around it, and a value. */
  function Assigned(key: string, before: string, behind: string, value: string): string {
    key + (before + ("=" + (behind + value)))
  }

  lemma ValueStarts(key: string, before: string, behind: string, value: string)
    requires Blanks(before) && Blanks(behind) && value != "" && !IsSpace(value[0])
    ensures var text, t := Assigned(key, before, behind, value), |key| + |before| + 1 + |behind|;
            && KeyAt(text, key, 0) && t <= |text| && text[t..] == value
            && SkipSpaces(text, SkipSpaces(text, |key|) + 1) == t
  {
    var text, e := Assigned(key, before, behind, value), |key| + |before|;
    var t := e + 1 + |behind|;
    assert text[..|key|] == key && text[|key|..e] == before && text[e] == '=' && text[e + 1..t] == behind;
    assert text[t] == value[0] && text[t..] == value;
    SkipsBlanks(text, |key|, e);
    SkipsBlanks(text, e + 1, t);
  }

  lemma FirstIsAt(text: string, key: string)
    requires KeyAt(text, key, 0) && text != ""
    ensures FirstKey(text, key, 0) == 0
  {}

  /** What is left behind the first keyword: the rest without its comma. */
  function WithoutComma(rest: string): string { if rest != "" && rest[0] == ',' then rest[1..] else rest }

  lemma Cut(text: string, t: nat, w: string, rest: string)
    requires t <= |text| && text[t..] == w + rest
    ensures t + |w| <= |text| && text[t..t + |w|] == w && text[t + |w|..] == rest
    ensures w != "" ==> text[t] == w[0]
  {
    var u := text[t..];
    assert text[t..t + |w|] == u[..|w|] && text[t + |w|..] == u[|w|..];
  }

  /** A value in brackets or quotes is what is between them, whatever it contains but the closing character. */
  lemma WrappedReads(key: string, before: string, behind: string, open: char, value: string, close: char, rest: string)
    requires Blanks(before) && Blanks(behind) && Wraps(open, close) && close !in value
    ensures Extract(Assigned(key, before, behind, [open] + (value + ([close] + rest))), key)
         == Extracted(value, WithoutComma(rest))
  {
    var tail := [open] + (value + ([close] + rest));
    var text, t := Assigned(key, before, behind, tail), |key| + |before| + 1 + |behind|;
    ValueStarts(key, before, behind, tail);
    WrappedSpan(text, t, open, value, close, rest);
    TakesFirstKey(text, key, t, Span(t + 1, t + 1 + |value|, t + 2 + |value|), value, rest);
  }

  lemma WrappedSpan(text: string, t: nat, open: char, value: string, close: char, rest: string)
    requires t <= |text| && text[t..] == [open] + (value + ([close] + rest)) && Wraps(open, close) && close !in value
    ensures var e := t + 1 + |value|;
            && ValueSpan(text, t) == Span(t + 1, e, e + 1) && e < |text| && text[t + 1..e] == value
            && text[e + 1..] == rest
  {
    var e := t + 1 + |value|;
    Cut(text, t, [open], value + ([close] + rest));
    Cut(text, t + 1, value, [close] + rest);
    Cut(text, e, [close], rest);
    assert forall k :: t < k < e ==> text[k] == text[t + 1..e][k - t - 1];
    assert FindChar(text, close, t + 1) == e;
  }

  /** The keyword at the start of the text, with its value. */
  lemma TakesFirstKey(text: string, key: string, t: nat, span: Span, value: string, rest: string)
    requires KeyAt(text, key, 0) && t <= |text| && SkipSpaces(text, SkipSpaces(text, |key|) + 1) == t
    requires ValueSpan(text, t) == span && text[span.from..span.to] == value && text[span.next..] == rest
    ensures Extract(text, key) == Extracted(value, WithoutComma(rest))
  {
    FirstIsAt(text, key);
    LeftBehind(text, span.next, rest);
  }

  lemma LeftBehind(text: string, next: nat, rest: string)
    requires next <= |text| && text[next..] == rest
    ensures Without(text, 0, next) == WithoutComma(rest)
  {
    assert next < |text| ==> text[next] == rest[0] && text[next + 1..] == rest[1..];
    assert text[..0] + rest == rest && text[..0] + WithoutComma(rest) == WithoutComma(rest);
  }

  /** A plain value goes up to a comma or a closing bracket, but may have these inside of brackets. */
  lemma BracketedReads(key: string, first: string, inner: string, last: string, rest: string)
    requires first != "" && !IsSpace(first[0]) && Closing(first[0]) == '\0' && Bare(first) && Bare(last)
    requires '[' !in inner && ']' !in inner && (rest != "" ==> rest[0] == ',' || rest[0] == ']')
    ensures var value := first + ("[" + (inner + ("]" + last)));
            Extract(Assigned(key, "", "", value + rest), key) == Extracted(value, WithoutComma(rest))
  {
    var tail3 := "]" + last;
    var tail2 := inner + tail3;
    var tail1 := "[" + tail2;
    var value := first + tail1;
    var text, t := Assigned(key, "", "", value + rest), |key| + 1;
    ValueStarts(key, "", "", value + rest);
    Cut(text, t, value, rest);
    var e := t + |value|;
    BracketedEnd(text, t, e, value, first, inner, last, tail1, tail2, tail3);
    TakesFirstKey(text, key, t, Span(t, e, e), value, rest);
  }

  /** A part of the text up to e, cut in two. */
  lemma CutPart(text: string, t: nat, e: nat, w: string, rest: string) returns (m: nat)
    requires t <= e <= |text| && text[t..e] == w + rest
    ensures m == t + |w| <= e && text[t..m] == w && text[m..e] == rest && (w != "" ==> text[t] == w[0])
  {
    m := t + |w|;
    var u := text[t..e];
    assert u[..|w|] == text[t..m] && u[|w|..] == text[m..e];
  }

  lemma BracketedEnd(text: string, t: nat, e: nat, value: string, first: string, inner: string, last: string,
                     tail1: string, tail2: string, tail3: string)
    requires value == first + tail1 && tail1 == "[" + tail2 && tail2 == inner + tail3 && tail3 == "]" + last
    requires t <= e <= |text| && text[t..e] == value && Bare(first) && Bare(last)
    requires first != "" && Closing(first[0]) == '\0' && '[' !in inner && ']' !in inner
    requires e < |text| ==> text[e] == ',' || text[e] == ']'
    ensures ValueSpan(text, t) == Span(t, e, e)
  {
    var b := CutPart(text, t, e, first, tail1);
    var c := CutPart(text, b, e, "[", tail2);
    var d := CutPart(text, c, e, inner, tail3);
    var f := CutPart(text, d, e, "]", last);
    PlainRuns(text, t, b, 0);
    InnerRuns(text, c, d);
    PlainRuns(text, f, e, 0);
    BracketPassed(text, b, c, 0);
    BracketPassed(text, d, f, 1);
    assert PlainEnd(text, e, 0) == e;
  }

  lemma BracketPassed(text: string, i: nat, next: nat, level: int)
    requires i < |text| && next == i + 1 && text[i] == (if level == 0 then '[' else ']') && 0 <= level <= 1
    ensures PlainEnd(text, i, level) == PlainEnd(text, next, 1 - level)
  {}

  /** No commas and brackets. */
  predicate Bare(s: string) { ',' !in s && '[' !in s && ']' !in s }

  lemma {:induction false} PlainRuns(text: string, i: nat, k: nat, level: int)
    requires i <= k <= |text| && Bare(text[i..k])
    ensures PlainEnd(text, i, level) == PlainEnd(text, k, level)
    decreases k - i
  {
    if i < k {
      assert text[i] == text[i..k][0] && text[i] in text[i..k] && text[i + 1..k] == text[i..k][1..];
      PlainRuns(text, i + 1, k, level);
    }
  }

  lemma {:induction false} InnerRuns(text: string, i: nat, k: nat)
    requires i <= k <= |text| && '[' !in text[i..k] && ']' !in text[i..k]
    ensures PlainEnd(text, i, 1) == PlainEnd(text, k, 1)
    decreases k - i
  {
    if i < k {
      assert text[i] == text[i..k][0] && text[i] in text[i..k] && text[i + 1..k] == text[i..k][1..];
      InnerRuns(text, i + 1, k);
    }
  }
}
