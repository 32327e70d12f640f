/** Order-preserving selection from a sequence: the reference the problem
    lists are compared against. */
module Seqs {

  /** The elements of `s` satisfying `p`, in their order in `s`. */
  function Filter<T>(s: seq<T>, p: T -> bool): (r: seq<T>)
    ensures |r| <= |s|
    ensures forall i :: 0 <= i < |r| ==> r[i] in s && p(r[i])
    ensures forall i :: 0 <= i < |s| && p(s[i]) ==> s[i] in r
  {
    if s == [] then [] else (if p(s[0]) then [s[0]] else []) + Filter(s[1..], p)
  }

  lemma Assoc3<T>(a: seq<T>, b: seq<T>, c: seq<T>, r: seq<T>)
    ensures a + b + c + r == a + (b + (c + r))
  {
  }

  lemma Assoc5<T>(a: seq<T>, b: seq<T>, c: seq<T>, d: seq<T>, e: seq<T>, r: seq<T>)
    ensures a + b + c + d + e + r == a + (b + (c + (d + (e + r))))
  {
  }
}
