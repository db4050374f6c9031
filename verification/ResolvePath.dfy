/** Removing . and .. from a path (libxpa/find.c). */
module ResolvePath {
  import opened Common

  // ---- Components ------------------------------------------------------------------------

  /** The text up to the next slash. */
  function Piece(s: string): (p: string)
    ensures p <= s && '/' !in p && (|p| == |s| || s[|p|] == '/')
  {
    if s == "" || s[0] == '/' then "" else [s[0]] + Piece(s[1..])
  }

  /** Whether a component starts after the first character of s: it is a slash, and the last of its
      run. */
  predicate Opens(s: string) { s != "" && s[0] == '/' && (|s| > 1 ==> s[1] != '/') }

  /** The texts between the slashes of s, where a run of slashes counts as one and what precedes the
      first slash is left out. */
  function Components(s: string): seq<string> {
    if s == "" then []
    else if Opens(s) then [Piece(s[1..])] + Components(s[1..])
    else Components(s[1..])
  }

  /** No slashes, and nothing empty but the last. */
  predicate Proper(comps: seq<string>) {
    && (forall k :: 0 <= k < |comps| ==> '/' !in comps[k])
    && (forall k :: 0 <= k < |comps| - 1 ==> comps[k] != "")
  }

  lemma {:induction false} ComponentsProper(s: string)
    ensures Proper(Components(s))
    ensures s != "" && '/' in s ==> Components(s) != []
  {
    if s != "" {
      ComponentsProper(s[1..]);
    }
  }

  function Slashes(n: nat): string { seq(n, _ => '/') }

  /** The components written out, with extra[k] more slashes than needed before the k-th. */
  function Spread(comps: seq<string>, extra: seq<nat>): string
    requires |extra| == |comps|
  {
    if comps == [] then "" else Slashes(extra[0]) + ("/" + (comps[0] + Spread(comps[1..], extra[1..])))
  }

  /** Reading a path back yields its components, however many slashes separate them. */
  lemma {:induction false} ComponentsOfSpread(comps: seq<string>, extra: seq<nat>)
    requires |extra| == |comps| && Proper(comps)
    ensures Components(Spread(comps, extra)) == comps
    decreases |comps|
  {
    if comps != [] {
      var rest := Spread(comps[1..], extra[1..]);
      ComponentsOfSpread(comps[1..], extra[1..]);
      PieceBefore(comps[0], rest);
      var text := comps[0] + rest;
      assert ("/" + text)[1..] == text;
      assert Opens("/" + text) by {
        assert comps[0] == "" ==> |comps| == 1 && text == "";
        assert text != "" ==> text[0] == comps[0][0];
      }
      SkipSlashes(extra[0], "/" + text);
    }
  }

  lemma {:induction false} PieceBefore(c: string, rest: string)
    requires '/' !in c && (rest != "" ==> rest[0] == '/')
    ensures Piece(c + rest) == c && Components(c + rest) == Components(rest)
  {
    if c == "" {
      assert c + rest == rest;
    } else {
      assert (c + rest)[1..] == c[1..] + rest;
      PieceBefore(c[1..], rest);
    }
  }

  lemma {:induction false} SkipSlashes(n: nat, rest: string)
    requires rest != "" && rest[0] == '/'
    ensures Components(Slashes(n) + rest) == Components(rest)
  {
    if n == 0 {
      assert Slashes(n) + rest == rest;
    } else {
      assert (Slashes(n) + rest)[1..] == Slashes(n - 1) + rest;
      SkipSlashes(n - 1, rest);
    }
  }

  // ---- The stack machine -----------------------------------------------------------------

  /** A . is skipped, a .. removes the last component if there is one, and anything else is added. */
  function Step(stack: seq<string>, c: string): seq<string> {
    if c == "." then stack
    else if c == ".." then if stack == [] then [] else stack[..|stack| - 1]
    else stack + [c]
  }

  function Run(stack: seq<string>, comps: seq<string>): seq<string>
    decreases |comps|
  {
    if comps == [] then stack else Run(Step(stack, comps[0]), comps[1..])
  }

  /** No . or .. is left. */
  predicate Clean(stack: seq<string>) { forall k :: 0 <= k < |stack| ==> stack[k] != "." && stack[k] != ".." }

  predicate Solid(stack: seq<string>) {
    Proper(stack) && Clean(stack) && forall k :: 0 <= k < |stack| ==> stack[k] != ""
  }

  lemma {:induction false} RunIsClean(stack: seq<string>, comps: seq<string>)
    requires Solid(stack) && Proper(comps)
    ensures Proper(Run(stack, comps)) && Clean(Run(stack, comps))
    decreases |comps|
  {
    if comps != [] {
      var next := Step(stack, comps[0]);
      if |comps| == 1 {
        assert Run(stack, comps) == Run(next, []) == next;
      } else {
        RunIsClean(next, comps[1..]);
      }
    }
  }

  /** A clean path is left alone. */
  lemma {:induction false} RunKeepsClean(stack: seq<string>, comps: seq<string>)
    requires Clean(comps)
    ensures Run(stack, comps) == stack + comps
    decreases |comps|
  {
    if comps == [] {
      assert stack + comps == stack;
    } else {
      RunKeepsClean(stack + [comps[0]], comps[1..]);
      assert (stack + [comps[0]]) + comps[1..] == stack + comps;
    }
  }

  lemma {:induction false} RunOneMore(stack: seq<string>, comps: seq<string>, c: string)
    ensures Run(stack, comps + [c]) == Step(Run(stack, comps), c)
    decreases |comps|
  {
    if comps == [] {
      assert (comps + [c])[1..] == [];
    } else {
      assert (comps + [c])[1..] == comps[1..] + [c];
      RunOneMore(Step(stack, comps[0]), comps[1..], c);
    }
  }

  // ---- Output ----------------------------------------------------------------------------

  function Join(stack: seq<string>): string {
    if stack == [] then "" else "/" + stack[0] + Join(stack[1..])
  }

  /** As many leading components as fit in `room` characters. */
  function Fit(stack: seq<string>, room: int): string {
    if stack == [] || |stack[0]| + 1 > room then ""
    else "/" + stack[0] + Fit(stack[1..], room - |stack[0]| - 1)
  }

  /** The longest prefix of whole components that fits is written. */
  lemma {:induction false} FitIsLongest(stack: seq<string>, room: int) returns (n: nat)
    requires room >= 0
    ensures n <= |stack| && Fit(stack, room) == Join(stack[..n]) && |Join(stack[..n])| <= room
    ensures n < |stack| ==> |Join(stack[..n + 1])| > room
    ensures |Join(stack)| <= room ==> Fit(stack, room) == Join(stack)
  {
    if stack == [] {
      return 0;
    }
    assert forall m :: 0 <= m < |stack| ==> stack[..m + 1][1..] == stack[1..][..m];
    var used := |stack[0]| + 1;
    if used > room {
      assert |stack[..0 + 1]| == 1;
      n := 0;
    } else {
      var m := FitIsLongest(stack[1..], room - used);
      n := m + 1;
    }
  }

  function Truncate(s: string, n: nat): string { if |s| <= n then s else s[..n] }

  /** The text to resolve: relative to the current directory, if it is known. */
  function Whole(ibuf: string, cwd: string): string {
    if ibuf != "" && ibuf[0] != '/' && cwd != "" then cwd + "/" + ibuf else ibuf
  }

  /** What ResolvePath returns in a buffer of maxlen characters. */
  function Resolve(ibuf: string, cwd: string, maxlen: nat): string
    requires maxlen > 0
  {
    if '/' !in ibuf then Truncate(ibuf, maxlen - 1)
    else if ibuf == "/" || ibuf == "/." then Truncate("/", maxlen - 1)
    else Fit(Run([], Components(Whole(ibuf, cwd))), maxlen - 1)
  }

  lemma {:induction false} JoinReads(stack: seq<string>)
    requires Proper(stack)
    ensures Components(Join(stack)) == stack
  {
    var none := seq(|stack|, _ => 0);
    JoinIsSpread(stack, none);
    ComponentsOfSpread(stack, none);
  }

  lemma {:induction false} JoinIsSpread(stack: seq<string>, none: seq<nat>)
    requires |none| == |stack| && forall k :: 0 <= k < |none| ==> none[k] == 0
    ensures Join(stack) == Spread(stack, none)
  {
    if stack != [] {
      JoinIsSpread(stack[1..], none[1..]);
      assert Slashes(0) == "";
    }
  }

  /** What is written for a path with a slash is a list of components, none of them . or .., and the
      only one that may be empty is the last. */
  lemma ResolveIsClean(ibuf: string, cwd: string, maxlen: nat) returns (stack: seq<string>)
    requires maxlen > 0 && '/' in ibuf
    ensures Proper(stack) && Clean(stack)
    ensures Resolve(ibuf, cwd, maxlen) == Join(stack) && |Join(stack)| < maxlen
    ensures Components(Resolve(ibuf, cwd, maxlen)) == stack
  {
    if ibuf == "/" || ibuf == "/." {
      stack := RootIsClean(maxlen);
    } else {
      var comps := Components(Whole(ibuf, cwd));
      ComponentsProper(Whole(ibuf, cwd));
      RunIsClean([], comps);
      stack := FitIsClean(Run([], comps), maxlen);
    }
    JoinReads(stack);
  }

  lemma RootIsClean(maxlen: nat) returns (stack: seq<string>)
    requires maxlen > 0
    ensures Proper(stack) && Clean(stack) && Truncate("/", maxlen - 1) == Join(stack) && |Join(stack)| < maxlen
  {
    stack := if maxlen == 1 then [] else [""];
    assert Join([""]) == "/" + "" + Join([]) == "/";
  }

  lemma FitIsClean(whole: seq<string>, maxlen: nat) returns (stack: seq<string>)
    requires maxlen > 0 && Proper(whole) && Clean(whole)
    ensures Proper(stack) && Clean(stack) && Fit(whole, maxlen - 1) == Join(stack) && |Join(stack)| < maxlen
  {
    var n := FitIsLongest(whole, maxlen - 1);
    stack := whole[..n];
  }

  lemma AbsoluteResolves(s: string, cwd: string, maxlen: nat)
    requires maxlen > 0 && s != "" && s[0] == '/' && s != "/."
    ensures Resolve(s, cwd, maxlen) == if s == "/" then Truncate(s, maxlen - 1)
                                       else Fit(Run([], Components(s)), maxlen - 1)
  {}

  lemma ResolveJoin(stack: seq<string>, cwd: string, maxlen: nat)
    requires Proper(stack) && Clean(stack) && |Join(stack)| < maxlen
    ensures Resolve(Join(stack), cwd, maxlen) == Join(stack)
  {
    if stack != [] {
      NotDot(stack);
      RunJoin(stack);
      ResolveClean(Join(stack), stack, cwd, maxlen);
    }
  }

  lemma RunJoin(stack: seq<string>)
    requires Proper(stack) && Clean(stack)
    ensures Run([], Components(Join(stack))) == stack
  {
    JoinReads(stack);
    RunKeepsClean([], stack);
    assert [] + stack == stack;
  }

  lemma ResolveClean(r: string, stack: seq<string>, cwd: string, maxlen: nat)
    requires r == Join(stack) && stack != [] && r != "/." && |r| < maxlen && Run([], Components(r)) == stack
    ensures Resolve(r, cwd, maxlen) == r
  {
    AbsoluteResolves(r, cwd, maxlen);
    var _ := FitIsLongest(stack, maxlen - 1);
  }

  lemma NotDot(stack: seq<string>)
    requires Proper(stack) && Clean(stack)
    ensures Join(stack) != "/."
  {
    JoinReads(stack);
    DotReads();
  }

  lemma DotReads()
    ensures Components("/.") == ["."]
  {
    JoinReads(["."]);
    assert Join(["."]) == "/" + "." + Join([]) == "/.";
  }

  // ---- What . and .. do ------------------------------------------------------------------

  /** A component that is a name. */
  predicate IsName(c: string) { c != "" && c != "." && c != ".." }

  /** One simplification leads from a to b: a name and the .. behind it go, or a ., or a .. at the root. */
  ghost predicate Simplifies(a: seq<string>, b: seq<string>) {
    || (exists pre, name, post :: IsName(name) && a == pre + ([name, ".."] + post) && b == pre + post)
    || (exists pre, post :: a == pre + (["."] + post) && b == pre + post)
    || a == [".."] + b
  }

  lemma {:induction false} RunBoth(stack: seq<string>, a: seq<string>, b: seq<string>)
    ensures Run(stack, a + b) == Run(Run(stack, a), b)
    decreases |a|
  {
    if a == [] {
      assert a + b == b;
    } else {
      assert (a + b)[1..] == a[1..] + b;
      RunBoth(Step(stack, a[0]), a[1..], b);
    }
  }

  lemma RunNameParent(stack: seq<string>, name: string, post: seq<string>)
    requires IsName(name)
    ensures Run(stack, [name, ".."] + post) == Run(stack, post)
  {
    var comps := [name, ".."] + post;
    assert comps[1..] == [".."] + post && comps[1..][1..] == post;
    assert (stack + [name])[..|stack|] == stack;
  }

  lemma RunFirst(stack: seq<string>, c: string, post: seq<string>)
    ensures Run(stack, [c] + post) == Run(Step(stack, c), post)
  {
    assert ([c] + post)[1..] == post;
  }

  lemma RunSimplified(a: seq<string>, b: seq<string>)
    requires Simplifies(a, b)
    ensures Run([], a) == Run([], b)
  {
    if pre, name, post :| IsName(name) && a == pre + ([name, ".."] + post) && b == pre + post {
      RunBoth([], pre, [name, ".."] + post);
      RunBoth([], pre, post);
      RunNameParent(Run([], pre), name, post);
    } else if pre, post :| a == pre + (["."] + post) && b == pre + post {
      RunBoth([], pre, ["."] + post);
      RunBoth([], pre, post);
      RunFirst(Run([], pre), ".", post);
    } else {
      RunFirst([], "..", b);
    }
  }

  /** A path is resolved as every simplification of it is; a path that has none is left as it is, as
      ResolveJoin says, so that this determines the result. */
  lemma ResolveSimplified(a: seq<string>, b: seq<string>, cwd: string, maxlen: nat)
    requires Simplifies(a, b) && Proper(a) && Proper(b) && maxlen > 0
    requires Join(a) != "/" && Join(a) != "/." && Join(b) != "/" && Join(b) != "/."
    ensures Resolve(Join(a), cwd, maxlen) == Resolve(Join(b), cwd, maxlen)
  {
    RunSimplified(a, b);
    JoinReads(a);
    JoinReads(b);
    assert a != [];
    AbsoluteResolves(Join(a), cwd, maxlen);
    if b != [] {
      AbsoluteResolves(Join(b), cwd, maxlen);
    }
  }

  /** A relative path is resolved as the same path behind the current directory and a slash. */
  lemma RelativeResolves(rel: string, cwd: string, maxlen: nat)
    requires '/' in rel && rel[0] != '/' && cwd != "" && cwd[0] == '/' && maxlen > 0
    ensures Resolve(rel, cwd, maxlen) == Resolve(cwd + "/" + rel, cwd, maxlen)
  {
    var whole := cwd + "/" + rel;
    assert whole[0] == '/' && |whole| > 2;
    AbsoluteResolves(whole, cwd, maxlen);
  }

  /** A text without a slash is copied as far as it fits, and the root is the root. */
  lemma OthersCopied(ibuf: string, cwd: string, maxlen: nat)
    requires maxlen > 0 && ('/' !in ibuf || ibuf == "/" || ibuf == "/.")
    ensures var r, whole := Resolve(ibuf, cwd, maxlen), if '/' in ibuf then "/" else ibuf;
            if |whole| < maxlen then r == whole else r == whole[..maxlen - 1]
  {}

  // ---- What is left of a path ------------------------------------------------------------

  predicate EndsInSlash(s: string) { s != "" && s[|s| - 1] == '/' }

  lemma {:induction false} LastComponent(s: string)
    requires '/' in s
    ensures Components(s) != [] && (Components(s)[|Components(s)| - 1] == "" <==> EndsInSlash(s))
  {
    if '/' in s[1..] {
      LastComponent(s[1..]);
    } else {
      NoSlash(s[1..]);
    }
  }

  lemma {:induction false} NoSlash(s: string)
    requires '/' !in s
    ensures Components(s) == [] && Piece(s) == s
  {
    if s != "" {
      NoSlash(s[1..]);
    }
  }

  /** An empty component is left exactly if the path ends in a slash. */
  lemma TrailingSlashStays(s: string)
    requires '/' in s
    ensures "" in Run([], Components(s)) <==> EndsInSlash(s)
  {
    var comps := Components(s);
    var n := |comps| - 1;
    ComponentsProper(s);
    LastComponent(s);
    assert comps == comps[..n] + [comps[n]];
    RunOneMore([], comps[..n], comps[n]);
    RunSolid([], comps[..n]);
  }

  lemma {:induction false} RunSolid(stack: seq<string>, comps: seq<string>)
    requires "" !in stack && "" !in comps
    ensures "" !in Run(stack, comps)
    decreases |comps|
  {
    if comps != [] {
      RunSolid(Step(stack, comps[0]), comps[1..]);
    }
  }

  /** How many more names than .. there are. */
  function Net(comps: seq<string>): int {
    if comps == [] then 0
    else (if comps[0] == "." then 0 else if comps[0] == ".." then -1 else 1) + Net(comps[1..])
  }

  ghost predicate NoSuffixOver(comps: seq<string>, d: int) {
    forall k :: 0 <= k <= |comps| ==> Net(comps[k..]) <= d
  }

  /** The depth that is left: since a .. at the root is ignored, it is the greatest excess of names over ..
      in what follows some point of the path. */
  lemma {:induction false} DepthLeft(stack: seq<string>, comps: seq<string>, d: nat)
    ensures |Run(stack, comps)| <= d <==> |stack| + Net(comps) <= d && NoSuffixOver(comps, d)
    decreases |comps|
  {
    if comps == [] {
      assert Net(comps[0..]) == 0;
    } else {
      DepthLeft(Step(stack, comps[0]), comps[1..], d);
      assert comps[0..] == comps && comps[1..][0..] == comps[1..];
      assert forall k :: 0 < k <= |comps| ==> comps[k..] == comps[1..][k - 1..];
      if NoSuffixOver(comps[1..], d) && Net(comps) <= d {
        forall k | 0 <= k <= |comps|
          ensures Net(comps[k..]) <= d
        {
          if k > 0 {
            assert Net(comps[1..][k - 1..]) <= d;
          }
        }
      }
      if NoSuffixOver(comps, d) {
        forall k | 0 <= k <= |comps| - 1
          ensures Net(comps[1..][k..]) <= d
        {
          assert Net(comps[k + 1..]) <= d;
        }
      }
    }
  }

  /** Given enough room, nothing at all is left of a path with a slash exactly if it is not "/." and no part at
      its end has more names than .. in it. */
  lemma NothingLeft(ibuf: string, cwd: string, maxlen: nat)
    requires maxlen > 1 && '/' in ibuf && |Join(Run([], Components(Whole(ibuf, cwd))))| < maxlen
    ensures Resolve(ibuf, cwd, maxlen) == "" <==> ibuf != "/." && NoSuffixOver(Components(Whole(ibuf, cwd)), 0)
  {
    var comps := Components(Whole(ibuf, cwd));
    DepthLeft([], comps, 0);
    assert comps[0..] == comps;
    var n := FitIsLongest(Run([], comps), maxlen - 1);
    if ibuf == "/" {
      assert comps == [""] && Net([""][1..]) == 0;
    }
  }

  lemma JoinEndsInSlash(stack: seq<string>)
    requires Proper(stack)
    ensures EndsInSlash(Join(stack)) <==> "" in stack
  {
    if stack != [] {
      JoinReads(stack);
      LastComponent(Join(stack));
    }
  }

  /** Given enough room, the result ends in a slash exactly if the path does, or is "/.". */
  lemma SlashKept(ibuf: string, cwd: string, maxlen: nat)
    requires maxlen > 1 && '/' in ibuf && |Join(Run([], Components(Whole(ibuf, cwd))))| < maxlen
    ensures EndsInSlash(Resolve(ibuf, cwd, maxlen)) <==> EndsInSlash(ibuf) || ibuf == "/."
  {
    if ibuf != "/" && ibuf != "/." {
      var whole := Whole(ibuf, cwd);
      var stack := Run([], Components(whole));
      TrailingSlashStays(whole);
      ComponentsProper(whole);
      RunIsClean([], Components(whole));
      JoinEndsInSlash(stack);
      var n := FitIsLongest(stack, maxlen - 1);
    }
  }

  /** The slash at the end stays, and with it an empty component. */
  lemma SlashAfterName(cwd: string)
    ensures Resolve("/a/", cwd, 4096) == "/a/" && Components("/a/") == ["a", ""]
  {
    var stack := ["a", ""];
    assert Join([""]) == "/" + "" + Join([]) == "/" && Join(stack) == "/" + "a" + Join([""]) == "/a/";
    JoinReads(stack);
    ResolveJoin(stack, cwd, 4096);
  }

  /** The parent of the root is the empty text, not the root. */
  lemma ParentOfRoot(cwd: string)
    ensures Resolve("/..", cwd, 4096) == ""
  {
    var comps := [".."];
    assert Join(comps) == "/" + ".." + Join([]) == "/..";
    JoinReads(comps);
    assert Run([], comps) == Run([], []) == [];
  }

  /** Resolving twice is resolving once, wherever the second call is made. */
  lemma ResolveTwice(ibuf: string, cwd: string, maxlen: nat, cwd': string)
    requires maxlen > 0
    ensures var r := Resolve(ibuf, cwd, maxlen); Resolve(r, cwd', maxlen) == r
  {
    if '/' in ibuf {
      var stack := ResolveIsClean(ibuf, cwd, maxlen);
      ResolveJoin(stack, cwd', maxlen);
    }
  }

  // ---- The algorithm ---------------------------------------------------------------------
  //
  // A part is an offset into the text buffer, in which every slash has become a terminator; -1 is a
  // null pointer.

  const NULL := -1

  ghost predicate Offsets(text: string, part: seq<int>) { forall k :: 0 <= k < |part| ==> NULL <= part[k] <= |text| }

  /** The texts of the parts that are not null. */
  ghost function Live(text: string, part: seq<int>): seq<string>
    requires Offsets(text, part)
  {
    if part == [] then []
    else
      var last := part[|part| - 1];
      Live(text, part[..|part| - 1]) + (if last == NULL then [] else [Piece(text[last..])])
  }

  lemma LiveOneMore(text: string, part: seq<int>, off: int)
    requires Offsets(text, part) && NULL <= off <= |text|
    ensures Offsets(text, part + [off])
    ensures Live(text, part + [off]) == Live(text, part) + (if off == NULL then [] else [Piece(text[off..])])
  {
    assert (part + [off])[..|part|] == part;
  }

  lemma {:induction false} LivePrefix(text: string, part: seq<int>, i: nat)
    requires Offsets(text, part) && i <= |part|
    ensures Live(text, part[..i]) <= Live(text, part)
    decreases |part|
  {
    if i < |part| {
      var most := part[..|part| - 1];
      LivePrefix(text, most, i);
      assert most[..i] == part[..i];
    } else {
      assert part[..i] == part;
    }
  }

  /** The text with its slashes replaced by terminators. */
  ghost predicate Cut(text: string, buf: seq<char>, upto: nat) {
    && |buf| > |text| && buf[|text|] == '\0'
    && forall k :: 0 <= k < |text| ==> buf[k] == if k < upto && text[k] == '/' then '\0' else text[k]
  }

  /** What has been read from `off` to i is the start of the string there.  The definition only unfolds
      where a proof mentions Unfold. */
  ghost predicate Reading(text: string, buf: seq<char>, off: nat, i: nat, s: string) {
    forall n {:trigger Unfold(n)} :: Unfold(n) ==>
      off <= i <= |text| && Cut(text, buf, |text|) && s + Piece(text[i..]) == Piece(text[off..])
  }

  lemma ReadingStart(text: string, buf: seq<char>, off: nat)
    requires off <= |text| && Cut(text, buf, |text|)
    ensures Reading(text, buf, off, off, "")
  {
    assert "" + Piece(text[off..]) == Piece(text[off..]);
  }

  lemma ReadingStep(text: string, buf: seq<char>, off: nat, i: nat, next: nat, s: string)
    requires '\0' !in text && Reading(text, buf, off, i, s) && next == i + 1
    ensures off <= i <= |text| < |buf|
    ensures buf[i] == '\0' ==> s == Piece(text[off..])
    ensures buf[i] != '\0' ==> next <= |text| && Reading(text, buf, off, next, s + [buf[i]])
  {
    assert Unfold(0);
    if i < |text| && text[i] != '/' {
      assert text[i..][0] == text[i] && text[i..][1..] == text[next..];
      Associative(s, [text[i]], Piece(text[next..]));
    } else {
      PieceEnds(text, i);
      assert s + "" == s;
    }
  }

  lemma PieceEnds(text: string, i: nat)
    requires i <= |text| && (i < |text| ==> text[i] == '/')
    ensures Piece(text[i..]) == ""
  {}

  /** The string at an offset of the buffer. */
  method StringAt(tbuf: array<char>, off: nat, ghost text: string) returns (s: string)
    requires '\0' !in text && off <= |text| && Cut(text, tbuf[..], |text|)
    ensures s == Piece(text[off..])
  {
    s := "";
    var i := off;
    ReadingStart(text, tbuf[..], off);
    ReadingStep(text, tbuf[..], off, i, i + 1, s);
    while tbuf[i] != '\0'
      invariant i <= |text| < tbuf.Length && Reading(text, tbuf[..], off, i, s)
      decreases |text| - i
    {
      ReadingStep(text, tbuf[..], off, i, i + 1, s);
      s := s + [tbuf[i]];
      i := i + 1;
    }
    ReadingStep(text, tbuf[..], off, i, i + 1, s);
  }

  /** One step of the first loop: `part` covers the text up to i, and `part'` the text up to i + 1. */
  lemma SplitStep(text: string, part: seq<int>, i: nat)
    requires Offsets(text, part) && i < |text| && Live(text, part) + Components(text[i..]) == Components(text)
    ensures var part' := if Opens(text[i..]) then part + [i + 1] else part;
            Offsets(text, part') && Live(text, part') + Components(text[i + 1..]) == Components(text)
  {
    assert text[i..][1..] == text[i + 1..];
    if Opens(text[i..]) {
      LiveOneMore(text, part, i + 1);
      Associative(Live(text, part), [Piece(text[i + 1..])], Components(text[i + 1..]));
    }
  }

  lemma CutStep(text: string, buf: seq<char>, i: nat)
    requires '\0' !in text && i < |text| && Cut(text, buf, i)
    ensures Cut(text, if text[i] == '/' then buf[i := '\0'] else buf, i + 1)
    ensures buf[i] == text[i] && Opens(text[i..]) == (buf[i] == '/' && buf[i + 1] != '/')
  {
    assert text[i..][0] == text[i] && (i + 1 < |text| ==> text[i..][1] == text[i + 1]);
  }

  /** After i steps the buffer is cut up to i, and `done` are the parts found.  The definition only
      unfolds where a proof mentions Unfold. */
  ghost predicate Splitting(text: string, buf: seq<char>, done: seq<int>, i: nat) {
    forall n {:trigger Unfold(n)} :: Unfold(n) ==>
      && i <= |text| + 1 && Cut(text, buf, Min(i, |text|)) && Offsets(text, done) && NULL !in done
      && Live(text, done) + Components(text[Min(i, |text|)..]) == Components(text)
  }

  lemma SplittingStep(text: string, buf: seq<char>, done: seq<int>, i: nat)
    requires '\0' !in text && Splitting(text, buf, done, i) && i <= |text| < |buf|
    ensures buf[i] == '/' ==> i < |text|
    ensures Splitting(text, if buf[i] == '/' then buf[i := '\0'] else buf,
                      if buf[i] == '/' && buf[i + 1] != '/' then done + [i + 1] else done, i + 1)
  {
    assert Unfold(0);
    if i < |text| {
      CutStep(text, buf, i);
      SplitStep(text, done, i);
    }
  }

  lemma SplitStart(text: string, buf: seq<char>)
    requires Cut(text, buf, 0)
    ensures Splitting(text, buf, [], 0)
  {}

  lemma SplitDone(text: string, buf: seq<char>, done: seq<int>, i: nat)
    requires Splitting(text, buf, done, i) && i >= |text|
    ensures Cut(text, buf, |text|) && Offsets(text, done) && NULL !in done && Live(text, done) == Components(text)
  {
    assert Unfold(0);
    assert Live(text, done) + [] == Live(text, done);
  }

  /** One step of the first loop. */
  method CutAt(tbuf: array<char>, part: array<int>, npart: nat, i: nat, ghost text: string)
    returns (npart': nat, i': nat)
    requires '\0' !in text && npart < part.Length && i <= |text| < tbuf.Length
    requires Splitting(text, tbuf[..], part[..npart], i)
    modifies tbuf, part
    ensures npart <= npart' <= npart + 1 && i' == i + 1 && Splitting(text, tbuf[..], part[..npart'], i')
  {
    ghost var buf, done := tbuf[..], part[..npart];
    SplittingStep(text, buf, done, i);
    npart', i' := npart, i + 1;
    if tbuf[i] == '/' {
      tbuf[i] := '\0';
      assert tbuf[..] == buf[i := '\0'];
      if tbuf[i + 1] != '/' {
        part[npart] := i + 1;
        npart' := npart + 1;
        assert part[..npart'] == done + [i + 1];
      }
    }
  }

  /** The first loop cuts the text at its slashes; len is the length of the text or one more. */
  method Split(tbuf: array<char>, len: nat, ghost text: string) returns (part: array<int>, npart: nat)
    requires '\0' !in text && Cut(text, tbuf[..], 0) && |text| <= len <= |text| + 1
    modifies tbuf
    ensures Cut(text, tbuf[..], |text|)
    ensures fresh(part) && npart <= part.Length && Offsets(text, part[..npart]) && NULL !in part[..npart]
    ensures Live(text, part[..npart]) == Components(text)
  {
    part, npart := new int[len], 0;
    SplitStart(text, tbuf[..]);
    assert part[..npart] == [];
    var i := 0;
    while i < len
      invariant npart <= i <= len && Splitting(text, tbuf[..], part[..npart], i)
    {
      npart, i := CutAt(tbuf, part, npart, i, text);
    }
    SplitDone(text, tbuf[..], part[..npart], len);
  }

  /** The inner loop for a .. removes the nearest earlier part that is left. */
  method DropPrevious(part: array<int>, i: nat, ghost text: string)
    requires i <= part.Length && Offsets(text, part[..i])
    modifies part
    ensures part[i..] == old(part[i..]) && Offsets(text, part[..i])
    ensures Live(text, part[..i]) == Step(Live(text, old(part[..i])), "..")
  {
    ghost var before := part[..i];
    var j := i - 1;
    while j >= 0
      invariant -1 <= j < i && part[..] == old(part[..])
      invariant NullFrom(before, j + 1)
    {
      if part[j] != NULL {
        part[j] := NULL;
        LiveWithout(text, before, j);
        assert part[..i] == before[j := NULL];
        return;
      }
      j := j - 1;
    }
    LiveNull(text, before, 0);
  }

  ghost predicate NullFrom(part: seq<int>, i: nat) { forall k :: i <= k < |part| ==> part[k] == NULL }

  lemma {:induction false} LiveNull(text: string, part: seq<int>, i: nat)
    requires Offsets(text, part) && i <= |part| && NullFrom(part, i)
    ensures Live(text, part) == Live(text, part[..i])
    decreases |part|
  {
    if i == |part| {
      assert part[..i] == part;
    } else {
      assert part[..|part| - 1][..i] == part[..i];
      LiveNull(text, part[..|part| - 1], i);
    }
  }

  /** Removing the last part that is left. */
  lemma LiveWithout(text: string, part: seq<int>, j: nat)
    requires Offsets(text, part) && j < |part| && part[j] != NULL && NullFrom(part, j + 1)
    ensures Offsets(text, part[j := NULL])
    ensures Live(text, part) != [] && Live(text, part[j := NULL]) == Live(text, part)[..|Live(text, part)| - 1]
  {
    var part' := part[j := NULL];
    LiveNull(text, part, j + 1);
    LiveNull(text, part', j);
    assert part[..j + 1][..j] == part[..j] == part'[..j];
  }

  /** One step of the second loop. */
  method PruneOne(tbuf: array<char>, part: array<int>, i: nat, ghost text: string)
    requires '\0' !in text && Cut(text, tbuf[..], |text|)
    requires i < part.Length && Offsets(text, part[..i]) && NULL < part[i] <= |text|
    modifies part
    ensures part[i + 1..] == old(part[i + 1..]) && Offsets(text, part[..i + 1])
    ensures Live(text, part[..i + 1]) == Step(Live(text, old(part[..i])), Piece(text[old(part[i])..]))
  {
    ghost var before := part[..i];
    ghost var after := part[i + 1..];
    var s := StringAt(tbuf, part[i], text);
    if s == "." {
      part[i] := NULL;
    } else if s == ".." {
      part[i] := NULL;
      assert part[i..][1..] == after;
      DropPrevious(part, i, text);
      assert part[i..][1..] == part[i + 1..] && part[i..][0] == part[i];
    }
    LiveOneMore(text, part[..i], part[i]);
    assert part[..i + 1] == part[..i] + [part[i]];
  }

  /** The second loop removes every . and every .. with the part before it. */
  method Prune(tbuf: array<char>, part: array<int>, npart: nat, ghost text: string)
    requires '\0' !in text && Cut(text, tbuf[..], |text|)
    requires npart <= part.Length && Offsets(text, part[..npart]) && NULL !in part[..npart]
    modifies part
    ensures Offsets(text, part[..npart])
    ensures Live(text, part[..npart]) == Run([], Live(text, old(part[..npart])))
  {
    ghost var names := part[..npart];
    for i := 0 to npart
      invariant Offsets(text, part[..i]) && forall k :: i <= k < npart ==> part[k] == names[k]
      invariant Live(text, part[..i]) == Run([], Live(text, names[..i]))
    {
      RunStep(text, names, i);
      PruneOne(tbuf, part, i, text);
    }
    assert names[..npart] == names;
  }

  lemma RunStep(text: string, names: seq<int>, i: nat)
    requires Offsets(text, names) && i < |names| && names[i] != NULL
    ensures Run([], Live(text, names[..i + 1])) == Step(Run([], Live(text, names[..i])), Piece(text[names[i]..]))
  {
    LiveOneMore(text, names[..i], names[i]);
    assert names[..i + 1] == names[..i] + [names[i]];
    RunOneMore([], Live(text, names[..i]), Piece(text[names[i]..]));
  }

  lemma {:induction false} JoinOneMore(stack: seq<string>, c: string)
    ensures Join(stack + [c]) == Join(stack) + ("/" + c)
  {
    if stack == [] {
      assert "/" + c + Join([]) == "" + ("/" + c);
    } else {
      assert (stack + [c])[1..] == stack[1..] + [c];
      JoinOneMore(stack[1..], c);
      Associative("/" + stack[0], Join(stack[1..]), "/" + c);
    }
  }

  /** The parts that fit so far, and the rest in the room that is left. */
  lemma {:induction false} FitSplit(stack: seq<string>, rest: seq<string>, room: int)
    requires |Join(stack)| <= room
    ensures Fit(stack + rest, room) == Join(stack) + Fit(rest, room - |Join(stack)|)
  {
    if stack == [] {
      assert stack + rest == rest;
    } else {
      var used := |stack[0]| + 1;
      assert (stack + rest)[1..] == stack[1..] + rest;
      FitFirst(stack + rest, room, used);
      FitSplit(stack[1..], rest, room - used);
      JoinFirst(stack, used);
      Associative("/" + stack[0], Join(stack[1..]), Fit(rest, room - used - |Join(stack[1..])|));
    }
  }

  lemma FitFirst(stack: seq<string>, room: int, used: nat)
    requires stack != [] && used == |stack[0]| + 1 <= room
    ensures Fit(stack, room) == ("/" + stack[0]) + Fit(stack[1..], room - used)
  {}

  lemma JoinFirst(stack: seq<string>, used: nat)
    requires stack != [] && used == |stack[0]| + 1
    ensures Join(stack) == ("/" + stack[0]) + Join(stack[1..]) && |Join(stack)| == used + |Join(stack[1..])|
  {}

  /** What the last loop has written after i parts. */
  ghost predicate Written(text: string, all: seq<int>, i: nat, obuf: string) {
    Offsets(text, all) && i <= |all| && obuf == Join(Live(text, all[..i]))
  }

  /** The last loop writes the parts that are left while they fit. */
  method Rebuild(tbuf: array<char>, part: array<int>, npart: nat, maxlen: nat, ghost text: string)
    returns (obuf: string)
    requires '\0' !in text && Cut(text, tbuf[..], |text|) && maxlen > 0
    requires npart <= part.Length && Offsets(text, part[..npart])
    ensures obuf == Fit(Live(text, part[..npart]), maxlen - 1)
  {
    ghost var all := part[..npart];
    obuf := "";
    var len := 0;
    assert all[..0] == [];
    var i := 0;
    while i < npart
      invariant i <= npart && Written(text, all, i, obuf) && len == |obuf| <= maxlen - 1
    {
      assert part[i] == all[i];
      var next := i + 1;
      if part[i] != NULL {
        var s := StringAt(tbuf, part[i], text);
        if len + |s| + 1 <= maxlen - 1 {
          WriteStep(text, all, i, next, obuf);
          obuf := obuf + ("/" + s);
          len := len + |s| + 1;
        } else {
          WriteStops(text, all, i, maxlen - 1);
          return;
        }
      } else {
        WriteStep(text, all, i, next, obuf);
      }
      i := next;
    }
    AllWritten(text, all, obuf, maxlen - 1);
  }

  lemma AllWritten(text: string, all: seq<int>, obuf: string, room: nat)
    requires Written(text, all, |all|, obuf) && |obuf| <= room
    ensures obuf == Fit(Live(text, all), room)
  {
    assert all[..|all|] == all;
    FitSplit(Live(text, all), [], room);
    assert Live(text, all) + [] == Live(text, all);
  }

  lemma WriteStep(text: string, all: seq<int>, i: nat, next: nat, obuf: string)
    requires i < |all| && next == i + 1 && Written(text, all, i, obuf)
    ensures Written(text, all, next, if all[i] == NULL then obuf else obuf + ("/" + Piece(text[all[i]..])))
  {
    LiveOneMore(text, all[..i], all[i]);
    assert all[..i + 1] == all[..i] + [all[i]];
    if all[i] == NULL {
      assert Live(text, all[..i]) + [] == Live(text, all[..i]);
    } else {
      JoinOneMore(Live(text, all[..i]), Piece(text[all[i]..]));
    }
  }

  /** Writing stops at the first part that does not fit. */
  lemma WriteStops(text: string, all: seq<int>, i: nat, room: nat)
    requires Offsets(text, all) && i < |all| && all[i] != NULL && |Join(Live(text, all[..i]))| <= room
    requires |Join(Live(text, all[..i]))| + |Piece(text[all[i]..])| + 1 > room
    ensures Fit(Live(text, all), room) == Join(Live(text, all[..i]))
  {
    var done, c := Live(text, all[..i]), Piece(text[all[i]..]);
    LiveOneMore(text, all[..i], all[i]);
    assert all[..i + 1] == all[..i] + [all[i]];
    LivePrefix(text, all, i + 1);
    var rest := Live(text, all)[|done|..];
    assert rest[0] == c && done + rest == Live(text, all);
    FitSplit(done, rest, room);
  }

  /** ResolvePath; cwd is the current directory, or empty if it cannot be had. */
  method ResolvePath(ibuf: string, cwd: string, maxlen: nat) returns (obuf: string)
    requires maxlen > 0 && '\0' !in ibuf && '\0' !in cwd
    ensures obuf == Resolve(ibuf, cwd, maxlen)
  {
    if '/' !in ibuf {
      return Truncate(ibuf, maxlen - 1);
    }
    if ibuf == "/" || ibuf == "/." {
      return Truncate("/", maxlen - 1);
    }
    var path := "";
    if ibuf[0] == '.' || ibuf[0] != '/' {
      path := cwd;
    }
    var len := |path| + |ibuf| + 1;
    var text := if path != "" then path + "/" + ibuf else ibuf;
    var tbuf := new char[len + 1](k => if 0 <= k < |text| then text[k] else '\0');
    var part, npart := Split(tbuf, len, text);
    Prune(tbuf, part, npart, text);
    obuf := Rebuild(tbuf, part, npart, maxlen, text);
  }
}
