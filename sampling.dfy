/** Sampling without replacement by popping one element at a chosen index
    from a list that shrinks in place (generate.py:85-87, 119). The random
    index `randrange(0, count)` is supplied by the caller: `choices[i]` is the
    index drawn at step `i`, when `n - i` elements remain. */
module Sampling {

  /** `list.pop(k)`: the list without its element at `k`, the others in order. */
  function RemoveAt<T>(s: seq<T>, k: nat): (r: seq<T>)
    requires k < |s|
    ensures |r| == |s| - 1
    ensures forall i :: 0 <= i < k ==> r[i] == s[i]
    ensures forall i :: k <= i < |r| ==> r[i] == s[i + 1]
  {
    s[..k] + s[k + 1..]
  }

  /** Every index drawn lies in `[0, count)` for the count left at its step. */
  predicate Fits(n: nat, choices: seq<nat>) {
    forall i :: 0 <= i < |choices| ==> choices[i] + i < n
  }

  /** The pool left after the draws in `choices`. */
  function Remaining<T>(pool: seq<T>, choices: seq<nat>): (r: seq<T>)
    requires Fits(|pool|, choices)
    ensures |r| == |pool| - |choices|
    decreases |choices|
  {
    if choices == [] then pool
    else
      var earlier := choices[..|choices| - 1];
      RemoveAt(Remaining(pool, earlier), choices[|choices| - 1])
  }

  /** The elements drawn, in the order they were drawn. */
  function Drawn<T>(pool: seq<T>, choices: seq<nat>): (r: seq<T>)
    requires Fits(|pool|, choices)
    ensures |r| == |choices|
    decreases |choices|
  {
    if choices == [] then []
    else
      var earlier := choices[..|choices| - 1];
      Drawn(pool, earlier) + [Remaining(pool, earlier)[choices[|choices| - 1]]]
  }

  /** Popping removes exactly the element at `k`. */
  lemma RemoveAtMultiset<T>(s: seq<T>, k: nat)
    requires k < |s|
    ensures multiset(RemoveAt(s, k)) + multiset{s[k]} == multiset(s)
  {
    assert s == s[..k] + [s[k]] + s[k + 1..];
  }

  /** Nothing is lost or duplicated: the drawn and the remaining elements
      together are the original pool. */
  lemma {:induction false} DrawnAndRemaining<T>(pool: seq<T>, choices: seq<nat>)
    requires Fits(|pool|, choices)
    ensures multiset(Drawn(pool, choices)) + multiset(Remaining(pool, choices)) == multiset(pool)
    decreases |choices|
  {
    if choices != [] {
      var earlier := choices[..|choices| - 1];
      DrawnAndRemaining(pool, earlier);
      RemoveAtMultiset(Remaining(pool, earlier), choices[|choices| - 1]);
    }
  }

  /** Each element is drawn at most once; a run of as many draws as the pool
      has elements draws all of them, in some order. */
  lemma DrawnIsSubMultiset<T>(pool: seq<T>, choices: seq<nat>)
    requires Fits(|pool|, choices)
    ensures multiset(Drawn(pool, choices)) <= multiset(pool)
    ensures |choices| == |pool| ==> multiset(Drawn(pool, choices)) == multiset(pool)
  {
    DrawnAndRemaining(pool, choices);
    if |choices| == |pool| {
      assert Remaining(pool, choices) == [];
    }
  }

  /** A draw comes from the pool. */
  lemma DrawnFromPool<T>(pool: seq<T>, choices: seq<nat>, i: nat)
    requires Fits(|pool|, choices) && i < |choices|
    ensures Drawn(pool, choices)[i] in pool
  {
    DrawnIsSubMultiset(pool, choices);
    assert Drawn(pool, choices)[i] in multiset(Drawn(pool, choices));
  }

  /** Drawing one more index extends the earlier draws and shrinks the pool by one. */
  lemma DrawStep<T>(pool: seq<T>, choices: seq<nat>, k: nat)
    requires Fits(|pool|, choices + [k])
    ensures Fits(|pool|, choices) && k < |Remaining(pool, choices)|
    ensures Drawn(pool, choices + [k]) == Drawn(pool, choices) + [Remaining(pool, choices)[k]]
    ensures Remaining(pool, choices + [k]) == RemoveAt(Remaining(pool, choices), k)
  {
    assert (choices + [k])[..|choices|] == choices;
    assert (choices + [k])[|choices|] == k;
  }
}
