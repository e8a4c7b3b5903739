/**
 * A model of `SliceRandom::shuffle` driven by an explicit source of random choices.
 * The random generator itself (`thread_rng`) is not modelled: `choices` stands for
 * whatever it produced. Working from the last position down, each choice picks which
 * of the not-yet-placed elements lands at that position.
 */
module Rand {

  /** Exchange of positions `i` and `j`. */
  function Swap<T>(s: seq<T>, i: nat, j: nat): (r: seq<T>)
    requires i < |s| && j < |s|
    ensures |r| == |s| && multiset(r) == multiset(s)
  {
    s[i := s[j]][j := s[i]]
  }

  /** The shuffled sequence; every outcome is a permutation of `s`. */
  function Shuffle<T>(s: seq<T>, choices: seq<nat>): (r: seq<T>)
    ensures |r| == |s|
    ensures multiset(r) == multiset(s)
    decreases |s|
  {
    if |s| <= 1 then s
    else
      var last := |s| - 1;
      var j := (if choices == [] then 0 else choices[0]) % |s|;
      var t := Swap(s, j, last);
      assert t == t[..last] + [t[last]];
      Shuffle(t[..last], if choices == [] then [] else choices[1..]) + [t[last]]
  }

  /** No element occurs twice. */
  predicate Distinct<T(==)>(s: seq<T>)
  {
    forall i, j :: 0 <= i < j < |s| ==> s[i] != s[j]
  }

  lemma {:induction false} DistinctMultiplicity<T>(s: seq<T>, x: T)
    requires Distinct(s)
    ensures multiset(s)[x] <= 1
  {
    if s != [] {
      assert s == [s[0]] + s[1..];
      DistinctMultiplicity(s[1..], x);
      assert s[0] !in s[1..];
    }
  }

  /** A permutation of a sequence without repeats has no repeats either. */
  lemma DistinctPermutation<T>(s: seq<T>, t: seq<T>)
    requires Distinct(s) && multiset(t) == multiset(s)
    ensures Distinct(t)
  {
    forall i, j | 0 <= i < j < |t| ensures t[i] != t[j] {
      if t[i] == t[j] {
        assert t == t[..j] + t[j..];
        assert t[i] in multiset(t[..j]);
        assert t[j] in multiset(t[j..]);
        assert multiset(t)[t[i]] >= 2;
        DistinctMultiplicity(s, t[i]);
      }
    }
  }
}
