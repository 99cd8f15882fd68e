/** Lookup by integer id: a linear scan that yields the first record in list order
    whose id equals the key, or reports that no record has it. */
module Lookup {

  datatype Lookup<+T> = Found(rec: T) | NotFound

  /** `i` is the position of the first record of `s` whose id is `k`. */
  ghost predicate IsFirstMatch<T>(s: seq<T>, idOf: T -> int, k: int, i: int) {
    0 <= i < |s| && idOf(s[i]) == k && forall j :: 0 <= j < i ==> idOf(s[j]) != k
  }

  /** Scan `s` from the front and stop at the first record whose id is `k`. */
  function Find<T>(s: seq<T>, idOf: T -> int, k: int): (r: Lookup<T>)
    ensures r.Found? ==> r.rec in s && idOf(r.rec) == k
    ensures r.NotFound? <==> forall i :: 0 <= i < |s| ==> idOf(s[i]) != k
    decreases |s|
  {
    if |s| == 0 then NotFound
    else if idOf(s[0]) == k then Found(s[0])
    else Find(s[1..], idOf, k)
  }

  /** The record found is the one at the first matching position, not merely some record with that id. */
  lemma {:induction false} FindReturnsFirst<T>(s: seq<T>, idOf: T -> int, k: int, i: int)
    requires IsFirstMatch(s, idOf, k, i)
    ensures Find(s, idOf, k) == Found(s[i])
    decreases i
  {
    if i > 0 {
      assert idOf(s[0]) != k;
      forall j | 0 <= j < i - 1
        ensures idOf(s[1..][j]) != k
      {
        assert s[1..][j] == s[j + 1];
      }
      FindReturnsFirst(s[1..], idOf, k, i - 1);
    }
  }
}
