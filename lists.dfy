/** The array searches the core uses: `findIndex` with a callback, of which
    `indexOf` and the id lookups of the store and the catalog are instances. */
module Lists {

  /** `p` is a prefix of `s`. */
  predicate IsPrefix<T(==)>(p: seq<T>, s: seq<T>) {
    |p| <= |s| && s[..|p|] == p
  }

  /** `s.findIndex(p)`: the first position whose element satisfies `p`, or -1 when none does. */
  function FindFirst<T>(s: seq<T>, p: T -> bool): (i: int)
    ensures -1 <= i < |s|
    ensures i == -1 <==> forall k :: 0 <= k < |s| ==> !p(s[k])
    ensures 0 <= i ==> p(s[i]) && forall k :: 0 <= k < i ==> !p(s[k])
    decreases |s|
  {
    if s == [] then -1
    else if p(s[0]) then 0
    else
      var j := FindFirst(s[1..], p);
      if j < 0 then -1 else j + 1
  }
}
