/** The templates of tmatch as they are written: literals, ?, * and sets of characters (libxpa/word.c). */
module Template {
  import opened Common

  /** What stands between the brackets of a set. */
  datatype SetItem = Single(c: char) | Range(lo: char, hi: char) {
    function Written(): string {
      match this
      case Single(c) => [c]
      case Range(lo, hi) => [lo, '-', hi]
    }

    predicate Covers(x: char) {
      match this
      case Single(c) => x == c
      case Range(lo, hi) => lo <= x <= hi
    }
  }

  /** Some item covers the character. */
  predicate Has(items: seq<SetItem>, x: char) { exists i :: 0 <= i < |items| && items[i].Covers(x) }

  function Body(items: seq<SetItem>): string {
    if items == [] then "" else items[0].Written() + Body(items[1..])
  }

  /** No item begins with a dash behind a single character, where it would be read as a range. */
  predicate NoStrayDash(items: seq<SetItem>) {
    forall i :: 0 < i < |items| && items[i - 1].Single? ==> items[i].Written()[0] != '-'
  }

  /** The items can be read back: no bracket closes the set too early, and a set that begins with a tilde is
      a negated one. */
  predicate ReadableSet(negated: bool, items: seq<SetItem>) {
    && ']' !in Body(items) && NoStrayDash(items)
    && (items != [] && !negated ==> items[0].Written()[0] != '~')
  }

  /** Where the items of a set at position i begin: a negated one has a tilde in front of them. */
  function FirstItem(i: nat, negated: bool): nat { if negated then i + 2 else i + 1 }

  /** The set stands at position i of the text. */
  predicate SetAt(t: string, i: nat, negated: bool, items: seq<SetItem>) {
    var first := FirstItem(i, negated);
    var end := first + |Body(items)|;
    && end < |t| && t[i] == '[' && (negated ==> t[i + 1] == '~') && t[first..end] == Body(items) && t[end] == ']'
    && ReadableSet(negated, items)
  }

  datatype Element = Literal(c: char) | AnyOne | Star | Set(items: seq<SetItem>) {
    function Written(): string {
      match this
      case Literal(c) => [c]
      case AnyOne => "?"
      case Star => "*"
      case Set(items) => "[" + (Body(items) + "]")
    }

    predicate Proper() {
      match this
      case Literal(c) => c != '*' && c != '?' && c != '['
      case Set(items) => ReadableSet(false, items)
      case _ => true
    }

    /** The element, which is no star, stands for this character. */
    predicate Fits(x: char) {
      match this
      case Literal(c) => x == c
      case Set(items) => Has(items, x)
      case _ => true
    }
  }

  function Text(es: seq<Element>): string {
    if es == [] then "" else es[0].Written() + Text(es[1..])
  }

  /** The elements stand for the string: a star for any part of it, every other one for a character. */
  ghost predicate StandsFor(es: seq<Element>, s: string) {
    if es == [] then s == ""
    else if es[0].Star? then exists k :: 0 <= k <= |s| && StandsFor(es[1..], s[k..])
    else s != "" && es[0].Fits(s[0]) && StandsFor(es[1..], s[1..])
  }

  /** The template is what these elements are written as. */
  ghost predicate Renders(es: seq<Element>, t: string) {
    t == Text(es) && forall e :: e in es ==> e.Proper()
  }

  lemma HasFirst(items: seq<SetItem>, x: char)
    requires items != []
    ensures Has(items, x) <==> items[0].Covers(x) || Has(items[1..], x)
  {
    assert forall i :: 0 < i < |items| ==> items[i] == items[1..][i - 1];
    if Has(items[1..], x) {
      var i :| 0 <= i < |items| - 1 && items[1..][i].Covers(x);
      assert items[i + 1].Covers(x);
    }
  }
}
