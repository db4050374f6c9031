/** Notions that several components share. */
module Common {

  datatype Option<T> = None | Some(value: T)

  /** isspace. */
  predicate IsSpace(c: char) { c == ' ' || '\t' <= c <= '\r' }

  function ToUpper(c: char): char { if 'a' <= c <= 'z' then (c as int - 32) as char else c }

  /** The characters are the same but for case. */
  predicate SameLetter(c: char, d: char) { ToUpper(c) == ToUpper(d) }

  /** The character of a C string at i, or its terminator. */
  function At(s: string, i: nat): char { if i < |s| then s[i] else '\0' }

  /** A C string: no terminator inside. */
  predicate CString(s: string) { '\0' !in s }

  function Min(a: int, b: int): int { if a < b then a else b }

  /** Definitions guarded by Unfold only unfold where a proof mentions it, so that a proof that puts facts
      together is not burdened with what they say. */
  ghost predicate Unfold(n: int) { true }

  lemma Associative<T>(a: seq<T>, b: seq<T>, c: seq<T>)
    ensures (a + b) + c == a + (b + c)
  {}
}
