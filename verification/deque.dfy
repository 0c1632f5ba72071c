/** The two operations of Python's bounded `collections.deque` that the
    simulations rely on. The front of a sequence is the deque's left end. */
module Deque {
  import opened Seqs

  /** `append` on a deque created with `maxlen`: the new item goes on the
      right, and once the deque would hold more than `maxlen` items the
      surplus is discarded from the left. A deque with `maxlen == 0` stays
      empty. */
  function Append(q: seq<int>, x: int, maxlen: nat): (r: seq<int>)
    ensures |r| == if |q| < maxlen then |q| + 1 else maxlen
    ensures r == (q + [x])[|q| + 1 - |r|..]
    ensures |q| < maxlen ==> r == q + [x]
    ensures 0 < maxlen == |q| ==> r == q[1..] + [x]
    ensures maxlen > 0 ==> r[|r| - 1] == x
    ensures Elems(r) <= Elems(q) + {x}
    ensures NoDup(q) && x !in q ==> NoDup(r)
  {
    if |q| < maxlen then q + [x]
    else if maxlen == 0 then []
    else q[|q| + 1 - maxlen..] + [x]
  }

  /** `remove`: deletes the leftmost occurrence of `x`, which must be present
      (the callers test membership first). */
  function Remove(q: seq<int>, x: int): (r: seq<int>)
    requires x in q
    ensures |r| == |q| - 1
    ensures multiset(r) == multiset(q) - multiset{x}
    decreases |q|
  {
    assert q == [q[0]] + q[1..];
    if q[0] == x then q[1..]
    else [q[0]] + Remove(q[1..], x)
  }

  /** In a duplicate-free deque, removing `x` keeps every other item in
      order, and the result is again duplicate-free without `x`. */
  lemma {:induction false} RemoveUnique(q: seq<int>, x: int)
    requires x in q && NoDup(q)
    ensures Remove(q, x) == Without(q, x)
    ensures NoDup(Remove(q, x)) && x !in Remove(q, x)
    decreases |q|
  {
    assert q == [q[0]] + q[1..];
    assert NoDup(q[1..]);
    if q[0] == x {
      assert x !in q[1..];
      WithoutAbsent(q[1..], x);
    } else {
      RemoveUnique(q[1..], x);
    }
  }
}
