/** The in-place exchange of two adjacent parts of argv (libargtable/getopt.c). */
module Exchange {

  /** Where the element that ends up at k comes from when [b, m) and [m, t) are exchanged. */
  function RotatedFrom(b: int, m: int, t: int, k: int): int {
    if b <= k < b + (t - m) then k - b + m else if b + (t - m) <= k < t then k - (t - m) else k
  }

  /** s with the parts s[b..m] and s[m..t] exchanged. */
  function Rotated<T>(s: seq<T>, b: int, m: int, t: int): seq<T>
    requires 0 <= b <= m <= t <= |s|
  {
    seq(|s|, k requires 0 <= k < |s| => s[RotatedFrom(b, m, t, k)])
  }

  lemma RotatedParts<T>(s: seq<T>, b: int, m: int, t: int)
    requires 0 <= b <= m <= t <= |s|
    ensures Rotated(s, b, m, t) == s[..b] + s[m..t] + s[b..m] + s[t..]
  {}

  lemma RotatedNothing<T>(s: seq<T>, b: int, m: int, t: int)
    requires 0 <= b <= m <= t <= |s| && (b == m || m == t)
    ensures Rotated(s, b, m, t) == s
  {}

  function SwappedFrom(p: int, q: int, len: int, k: int): int {
    if p <= k < p + len then k - p + q else if q <= k < q + len then k - q + p else k
  }

  /** s with the equally long parts at p and q swapped. */
  function Swapped<T>(s: seq<T>, p: int, q: int, len: int): seq<T>
    requires 0 <= p <= p + len <= q <= q + len <= |s|
  {
    seq(|s|, k requires 0 <= k < |s| => s[SwappedFrom(p, q, len, k)])
  }

  /** The short bottom part is swapped with the top end of the long top part; what remains is an
      exchange of the same kind, with a lower top. */
  lemma BottomShort<T>(s: seq<T>, b: int, m: int, t: int, t': int, s': seq<T>)
    requires 0 <= b <= m <= t' <= t <= |s| && t' == t - (m - b) && s' == Swapped(s, b, t', m - b)
    ensures Rotated(s', b, m, t') == Rotated(s, b, m, t)
  {}

  /** The short top part is swapped with the bottom end of the bottom part. */
  lemma TopShort<T>(s: seq<T>, b: int, m: int, t: int, b': int, s': seq<T>)
    requires 0 <= b <= b' <= m <= t <= |s| && b' == b + (t - m) && s' == Swapped(s, b, m, t - m)
    ensures Rotated(s', b', m, t) == Rotated(s, b, m, t)
  {}

  /** The inner loop of both branches: swap argv[p..p+len] with argv[q..q+len]. */
  method SwapParts<T>(argv: array<T>, p: nat, q: nat, len: nat)
    requires p + len <= q <= q + len <= argv.Length
    modifies argv
    ensures argv[..] == Swapped(old(argv[..]), p, q, len)
  {
    ghost var s := argv[..];
    for i := 0 to len
      invariant forall k :: 0 <= k < argv.Length ==> argv[k] == s[SwappedFrom(p, q, i, k)]
    {
      var tem := argv[p + i];
      argv[p + i] := argv[q + i];
      argv[q + i] := tem;
    }
  }

  /** One round of the outer loop when the bottom part is the short one; the new top is returned. */
  method SwapBottom<T>(argv: array<T>, bottom: nat, middle: nat, top: nat) returns (top': nat)
    requires bottom < middle < top <= argv.Length && top - middle > middle - bottom
    modifies argv
    ensures middle <= top' < top
    ensures Rotated(argv[..], bottom, middle, top') == old(Rotated(argv[..], bottom, middle, top))
  {
    var len := middle - bottom;
    ghost var before := argv[..];
    top' := top - len;
    SwapParts(argv, bottom, top', len);
    BottomShort(before, bottom, middle, top, top', argv[..]);
  }

  /** One round when the top part is the short one; the new bottom is returned. */
  method SwapTop<T>(argv: array<T>, bottom: nat, middle: nat, top: nat) returns (bottom': nat)
    requires bottom < middle < top <= argv.Length && top - middle <= middle - bottom
    modifies argv
    ensures bottom < bottom' <= middle
    ensures Rotated(argv[..], bottom', middle, top) == old(Rotated(argv[..], bottom, middle, top))
  {
    var len := top - middle;
    ghost var before := argv[..];
    bottom' := bottom + len;
    SwapParts(argv, bottom, middle, len);
    TopShort(before, bottom, middle, top, bottom', argv[..]);
  }

  /** exchange: afterwards the part that was last comes first, and nothing outside moved. */
  method ExchangeParts<T>(argv: array<T>, first: nat, last: nat, top0: nat)
    requires first <= last <= top0 <= argv.Length
    modifies argv
    ensures argv[..] == Rotated(old(argv[..]), first, last, top0)
  {
    var bottom, middle, top := first, last, top0;
    while top > middle && middle > bottom
      invariant first <= bottom <= middle <= top <= top0
      invariant Rotated(argv[..], bottom, middle, top) == old(Rotated(argv[..], first, last, top0))
      decreases top - bottom
    {
      if top - middle > middle - bottom {
        top := SwapBottom(argv, bottom, middle, top);
      } else {
        bottom := SwapTop(argv, bottom, middle, top);
      }
    }
    RotatedNothing(argv[..], bottom, middle, top);
  }
}
