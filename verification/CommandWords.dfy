/** What a request says, word by word, and which names its first words make (libxpa/command.c). */
module CommandWords {
  import opened Common
  import opened Tokenizer
  import opened CommandNames

  // ---- Words -----------------------------------------------------------------------------

  /** A word that needs no quotes. */
  predicate PlainWord(w: string) { w != "" && !IsQuote(w[0]) && forall k :: 0 <= k < |w| ==> !IsSpace(w[k]) }

  predicate PlainWords(ws: seq<string>) { forall k :: 0 <= k < |ws| ==> PlainWord(ws[k]) }

  function Front(ws: seq<string>): (r: seq<string>)
    requires ws != []
    ensures |r| == |ws| - 1 && ws == r + [Last(ws)]
  {
    ws[..|ws| - 1]
  }

  function Last(ws: seq<string>): string
    requires ws != []
  {
    ws[|ws| - 1]
  }

  /** The words with single blanks between them. */
  function Joined(ws: seq<string>): string {
    if ws == [] then "" else if |ws| == 1 then ws[0] else Joined(ws[..|ws| - 1]) + " " + ws[|ws| - 1]
  }

  predicate Gap(text: string, d: Table, i: nat, b: nat) {
    i <= b <= |text| && forall k :: i <= k < b ==> Separates(d, text[k])
  }

  /** The word stands in the text, up to the end or a separator. */
  predicate WordAt(text: string, d: Table, b: nat, e: nat, w: string) {
    && b < e <= |text| && text[b..e] == w && (e < |text| ==> Separates(d, text[e]))
    && forall k :: b <= k < e ==> !Separates(d, text[k])
  }

  /** These are the first words of the text, and the last of them ends at e. */
  ghost predicate Begins(text: string, d: Table, ws: seq<string>, e: nat)
    decreases |ws|, 0
  {
    if ws == [] then e == 0 else exists b :: Follows(text, d, Front(ws), b) && WordAt(text, d, b, e, Last(ws))
  }

  /** The next word, behind these, stands at b. */
  ghost predicate Follows(text: string, d: Table, ws: seq<string>, b: nat)
    decreases |ws|, 1
  {
    exists e :: Begins(text, d, ws, e) && Gap(text, d, e, b)
  }

  ghost predicate BeginsWith(text: string, d: Table, ws: seq<string>) { exists e :: Begins(text, d, ws, e) }

  lemma JoinedMore(ws: seq<string>, w: string)
    requires PlainWords(ws)
    ensures (ws + [w])[..|ws|] == ws && Joined(ws + [w]) == NameWith(Joined(ws), w)
  {
    assert (ws + [w])[..|ws|] == ws;
    if ws != [] {
      JoinedNonEmpty(ws);
    }
  }

  lemma {:induction false} JoinedNonEmpty(ws: seq<string>)
    requires PlainWords(ws) && ws != []
    ensures Joined(ws) != "" && !IsSpace(Joined(ws)[|Joined(ws)| - 1])
  {}

  lemma {:induction false} JoinedSpaces(ws: seq<string>)
    requires PlainWords(ws)
    ensures Spaces(Joined(ws)) == if ws == [] then 0 else |ws| - 1
  {
    if ws != [] {
      var pre, w := ws[..|ws| - 1], ws[|ws| - 1];
      NoSpaces(w);
      if |ws| > 1 {
        JoinedSpaces(pre);
        SpacesConcat(Joined(pre), " ");
        SpacesConcat(Joined(pre) + " ", w);
      }
    }
  }

  /** The words can be read off their joined text. */
  lemma {:induction false} JoinedInjective(ws: seq<string>, vs: seq<string>)
    requires PlainWords(ws) && PlainWords(vs) && |ws| == |vs| && Joined(ws) == Joined(vs)
    ensures ws == vs
  {
    if |ws| > 1 {
      var n := |ws| - 1;
      LastWord(Joined(ws[..n]), ws[n], Joined(vs[..n]), vs[n]);
      JoinedInjective(ws[..n], vs[..n]);
      assert ws == ws[..n] + [ws[n]] && vs == vs[..n] + [vs[n]];
    } else if |ws| == 1 {
      assert ws == [ws[0]] && vs == [vs[0]];
    }
  }

  lemma LastWord(a: string, w: string, b: string, v: string)
    requires PlainWord(w) && PlainWord(v) && a + " " + w == b + " " + v
    ensures a == b && w == v
  {
    var s, t := a + " " + w, b + " " + v;
    assert s[|a|] == ' ' && t[|b|] == ' ';
    assert forall k :: |a| < k < |s| ==> s[k] == w[k - |a| - 1];
    assert forall k :: |b| < k < |t| ==> t[k] == v[k - |b| - 1];
    assert |a| == |b|;
    assert s[..|a|] == a && t[..|b|] == b && s[|a| + 1..] == w && t[|b| + 1..] == v;
  }

  // ---- Texts -----------------------------------------------------------------------------

  /** The words, each behind its gap. */
  function Spread(gaps: seq<string>, ws: seq<string>): string
    requires |gaps| == |ws|
  {
    if ws == [] then ""
    else Spread(gaps[..|ws| - 1], ws[..|ws| - 1]) + (gaps[|ws| - 1] + ws[|ws| - 1])
  }

  predicate Separators(d: Table, gap: string) { forall k :: 0 <= k < |gap| ==> Separates(d, gap[k]) }

  /** A word that the table does not divide. */
  predicate Whole(d: Table, w: string) { PlainWord(w) && forall k :: 0 <= k < |w| ==> !Separates(d, w[k]) }

  /** A text that is written as words between separators begins with these words. */
  lemma {:induction false} SpreadBegins(d: Table, gaps: seq<string>, ws: seq<string>, rest: string)
    requires |gaps| == |ws| && forall k :: 0 <= k < |ws| ==> Whole(d, ws[k]) && Separators(d, gaps[k])
    requires forall k :: 0 < k < |gaps| ==> gaps[k] != ""
    requires rest != "" ==> Separates(d, rest[0])
    ensures Begins(Spread(gaps, ws) + rest, d, ws, |Spread(gaps, ws)|)
  {
    if ws != [] {
      var n := |ws| - 1;
      var gap, w := gaps[n], ws[n];
      var more := gap + w + rest;
      GapFirst(gap, w, rest, more);
      assert n > 0 ==> Separates(d, more[0]);
      SpreadBegins(d, gaps[..n], ws[..n], if n == 0 then "" else more);
      SpreadMore(d, Spread(gaps[..n], ws[..n]), gap, w, rest, more, ws[..n], ws);
    }
  }

  lemma SpreadMore(d: Table, s: string, gap: string, w: string, rest: string, more: string, pre: seq<string>,
                   ws: seq<string>)
    requires more == gap + w + rest && Separators(d, gap) && Whole(d, w) && (rest != "" ==> Separates(d, rest[0]))
    requires if pre == [] then s == "" else Begins(s + more, d, pre, |s|)
    requires ws == pre + [w]
    ensures Begins(s + (gap + w) + rest, d, ws, |s + (gap + w)|)
  {
    var text := s + (gap + w) + rest;
    FourParts(s, gap, w, rest, more);
    WordBehindGap(d, s, gap, w, rest, text);
    OneMoreBegins(text, d, pre, |s|, |s| + |gap|, |s| + |gap| + |w|, w, ws);
  }

  lemma GapFirst(gap: string, w: string, rest: string, more: string)
    requires more == gap + w + rest && w != ""
    ensures more != "" && more[0] == if gap != "" then gap[0] else w[0]
  {}

  lemma FourParts(s: string, gap: string, w: string, rest: string, more: string)
    requires more == gap + w + rest
    ensures s + more == s + (gap + w) + rest
  {}

  lemma OneMoreBegins(text: string, d: Table, ws: seq<string>, e0: nat, b: nat, e: nat, w: string, ws': seq<string>)
    requires Begins(text, d, ws, e0) && Gap(text, d, e0, b) && WordAt(text, d, b, e, w) && ws' == ws + [w]
    ensures Begins(text, d, ws', e)
  {
    assert Follows(text, d, ws, b);
    assert Front(ws') == ws && Last(ws') == w;
  }

  lemma LastBegins(text: string, d: Table, ws: seq<string>, e: nat)
    returns (pre: seq<string>, w: string, e0: nat, b: nat)
    requires ws != [] && Begins(text, d, ws, e)
    ensures ws == pre + [w]
    ensures Begins(text, d, pre, e0) && Gap(text, d, e0, b) && WordAt(text, d, b, e, w)
  {
    pre, w := Front(ws), Last(ws);
    b :| Follows(text, d, pre, b) && WordAt(text, d, b, e, w);
    e0 :| Begins(text, d, pre, e0) && Gap(text, d, e0, b);
  }

  lemma WordBehindGap(d: Table, s: string, gap: string, w: string, rest: string, text: string)
    requires text == s + (gap + w + rest) && Separators(d, gap) && Whole(d, w) && (rest != "" ==> Separates(d, rest[0]))
    ensures Gap(text, d, |s|, |s| + |gap|) && WordAt(text, d, |s| + |gap|, |s| + |gap| + |w|, w)
  {
    var b := |s| + |gap|;
    assert forall k :: |s| <= k < b ==> text[k] == gap[k - |s|];
    assert forall k :: b <= k < b + |w| ==> text[k] == w[k - b];
    assert text[b..b + |w|] == w;
    assert rest != "" ==> text[b + |w|] == rest[0];
  }

  lemma {:induction false} JoinedFits(text: string, d: Table, ws: seq<string>, e: nat)
    requires PlainWords(ws) && Begins(text, d, ws, e)
    ensures |Joined(ws)| <= e && (ws != [] ==> 0 < e <= |text| && (e < |text| ==> Separates(d, text[e])))
  {
    if ws != [] {
      var pre, w, e0, b := LastBegins(text, d, ws, e);
      JoinedFits(text, d, pre, e0);
      assert |w| == e - b;
      if pre != [] {
        assert e0 < b;
      }
    }
  }

  // ---- Tokens ----------------------------------------------------------------------------

  /** `word` finds the word behind a gap. */
  lemma NextIs(text: string, d: Table, i: nat, b: nat, e: nat, w: string)
    requires Gap(text, d, i, b) && WordAt(text, d, b, e, w) && PlainWord(w)
    ensures NextWord(text, d, i) == Found(w, Past(text, e), At(text, e))
  {
    assert SkipSeparators(text, d, i) == b && text[b] == w[0];
    assert WordEnd(text, d, b) == e;
  }

  /** The words of the text, one after the other: the last two, and where the search for the last starts. */
  lemma LastStep(text: string, d: Table, ws: seq<string>, e: nat) returns (pre: seq<string>, w: string, e0: nat, i: nat)
    requires ws != [] && PlainWords(ws) && Begins(text, d, ws, e)
    ensures ws == pre + [w] && Begins(text, d, pre, e0) && PlainWords(pre) && PlainWord(w)
    ensures i == (if pre == [] then 0 else Past(text, e0)) <= |text|
    ensures NextWord(text, d, i) == Found(w, Past(text, e), At(text, e))
  {
    var b;
    pre, w, e0, b := LastBegins(text, d, ws, e);
    JoinedFits(text, d, pre, e0);
    i := if pre == [] then 0 else Past(text, e0);
    assert pre != [] ==> e0 < b;
    NextIs(text, d, i, b, e, w);
  }

  /** The first words of a request make the name that they are joined to. */
  lemma {:induction false} BuildBegins(text: string, d: Table, ws: seq<string>, e: nat)
    requires PlainWords(ws) && Begins(text, d, ws, e) && |Joined(ws)| < SZ_LINE - 1
    ensures Build(text, d, |ws|) == if ws == [] then Built("", 0, 0, false)
                                    else Built(Joined(ws), |Joined(ws)| + 1, Past(text, e), false)
  {
    if ws != [] {
      var pre, w, e0, i := LastStep(text, d, ws, e);
      JoinedMore(pre, w);
      BuildBegins(text, d, pre, e0);
      var r := Build(text, d, |pre|);
      assert Extend(text, d, r) == Built(Joined(ws), |Joined(ws)| + 1, Past(text, e), false);
    }
  }

  /** A name that is given as words is stored as the joined words. */
  lemma {:induction false} ParseBegins(text: string, ws: seq<string>, e: nat)
    requires PlainWords(ws) && Begins(text, NO_DELIMITERS, ws, e)
    ensures ws != [] ==> Past(text, e) <= |text|
    ensures ParseNames(text, NO_DELIMITERS, 0, "", 0)
         == ParseNames(text, NO_DELIMITERS, if ws == [] then 0 else Past(text, e), Joined(ws), |ws|)
  {
    if ws != [] {
      var pre, w, e0, i := LastStep(text, NO_DELIMITERS, ws, e);
      JoinedMore(pre, w);
      JoinedFits(text, NO_DELIMITERS, ws, e);
      ParseBegins(text, pre, e0);
    }
  }

  /** What n tokens of a text without quotes are: its first words, and, if it has fewer, perhaps an empty
      token at the end. */
  lemma {:induction false} WordsTaken(text: string, d: Table, n: nat) returns (ws: seq<string>, e: nat, done: bool)
    requires Unquoted(text) && !Build(text, d, n).broke
    ensures Begins(text, d, ws, e) && PlainWords(ws) && |ws| <= n
    ensures var r := Build(text, d, n);
            if done then |ws| < n && r.lp2 == |text| && (r.name == Joined(ws) || r.name == Joined(ws) + " ")
            else |ws| == n && r.name == Joined(ws) && r.lp2 == if ws == [] then 0 else Past(text, e)
  {
    if n == 0 {
      ws, e, done := [], 0, false;
    } else {
      ws, e, done := WordsTaken(text, d, n - 1);
      if !done {
        ws, e, done := OneMoreWord(text, d, ws, e, Build(text, d, n - 1));
      }
    }
  }

  lemma OneMoreWord(text: string, d: Table, ws: seq<string>, e: nat, r: Built)
    returns (ws': seq<string>, e': nat, done: bool)
    requires Unquoted(text) && Begins(text, d, ws, e) && PlainWords(ws) && r.lp2 <= |text| && !r.broke
    requires r.name == Joined(ws) && r.lp2 == (if ws == [] then 0 else Past(text, e)) && !Extend(text, d, r).broke
    ensures Begins(text, d, ws', e') && PlainWords(ws')
    ensures var r' := Extend(text, d, r);
            if done then ws' == ws && r'.lp2 == |text| && (r'.name == Joined(ws) || r'.name == Joined(ws) + " ")
            else |ws'| == |ws| + 1 && r'.name == Joined(ws') && r'.lp2 == Past(text, e')
  {
    var b := SkipSeparators(text, d, r.lp2);
    if r.lp2 == |text| || b == |text| {
      ws', e', done := ws, e, true;
    } else {
      done := false;
      ws', e' := AnotherWord(text, d, ws, e, r.lp2, b);
    }
  }

  lemma AnotherWord(text: string, d: Table, ws: seq<string>, e: nat, i: nat, b: nat) returns (ws': seq<string>, e': nat)
    requires Unquoted(text) && Begins(text, d, ws, e) && PlainWords(ws) && i == if ws == [] then 0 else Past(text, e)
    requires i <= |text| && b == SkipSeparators(text, d, i) < |text|
    ensures Begins(text, d, ws', e') && PlainWords(ws') && |ws'| == |ws| + 1
    ensures var r := NextWord(text, d, i);
            r.Found? && r.ptr == Past(text, e') && Joined(ws') == NameWith(Joined(ws), r.token)
  {
    var w;
    w, e' := WordFrom(text, d, i, b);
    ws' := ws + [w];
    JoinedFits(text, d, ws, e);
    JoinedMore(ws, w);
    GapBefore(text, d, e, i, b);
    OneMoreBegins(text, d, ws, e, b, e', w, ws');
    assert forall k :: 0 <= k < |ws'| ==> ws'[k] == if k < |ws| then ws[k] else w;
  }

  lemma GapBefore(text: string, d: Table, e: nat, i: nat, b: nat)
    requires Gap(text, d, i, b) && (i == e || (i == e + 1 && Separates(d, text[e])))
    ensures Gap(text, d, e, b)
  {}

  lemma WordFrom(text: string, d: Table, i: nat, b: nat) returns (w: string, e: nat)
    requires Unquoted(text) && i <= |text| && b == SkipSeparators(text, d, i) < |text|
    ensures NextWord(text, d, i) == Found(w, Past(text, e), At(text, e)) && Gap(text, d, i, b)
    ensures WordAt(text, d, b, e, w) && PlainWord(w)
  {
    e := WordEnd(text, d, b);
    w := text[b..e];
    assert w[0] == text[b];
    assert forall k :: 0 <= k < |w| ==> w[k] == text[b + k];
  }

  /** A text without quotes makes the name of words if and only if it begins with these words. */
  lemma NameIsWords(text: string, d: Table, ws: seq<string>)
    requires Unquoted(text) && PlainWords(ws) && ws != [] && |Joined(ws)| < SZ_LINE - 1
    ensures Build(text, d, |ws|).name == Joined(ws) <==> BeginsWith(text, d, ws)
  {
    if BeginsWith(text, d, ws) {
      NameOfWords(text, d, ws);
    } else if Build(text, d, |ws|).name == Joined(ws) {
      var e := WordsOfName(text, d, ws);
    }
  }

  lemma NameOfWords(text: string, d: Table, ws: seq<string>)
    requires PlainWords(ws) && ws != [] && |Joined(ws)| < SZ_LINE - 1 && BeginsWith(text, d, ws)
    ensures Build(text, d, |ws|).name == Joined(ws)
  {
    var e: nat :| Begins(text, d, ws, e);
    BuildBegins(text, d, ws, e);
  }

  lemma WordsOfName(text: string, d: Table, ws: seq<string>) returns (e: nat)
    requires Unquoted(text) && PlainWords(ws) && ws != [] && Build(text, d, |ws|).name == Joined(ws)
    ensures Begins(text, d, ws, e) && BeginsWith(text, d, ws)
  {
    JoinedNonEmpty(ws);
    BrokenHasNoName(text, d, |ws|);
    var vs, done;
    vs, e, done := WordsTaken(text, d, |ws|);
    if done {
      TooFew(ws, vs, Joined(ws));
    } else {
      JoinedInjective(vs, ws);
    }
  }

  lemma TooFew(ws: seq<string>, vs: seq<string>, name: string)
    requires PlainWords(ws) && PlainWords(vs) && |vs| < |ws| && name == Joined(ws)
    ensures name != Joined(vs) && name != Joined(vs) + " "
  {
    JoinedNonEmpty(ws);
    JoinedSpaces(ws);
    JoinedSpaces(vs);
    var longer := Joined(vs) + " ";
    assert longer[|longer| - 1] == ' ';
    if vs == [] {
      assert Joined(vs) == "";
    }
  }
}
