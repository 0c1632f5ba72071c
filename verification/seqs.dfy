/** Sequence vocabulary shared by the deque- and dict-backed caches. */
module Seqs {

  /** No element occurs twice. */
  predicate NoDup(q: seq<int>) {
    forall i, j :: 0 <= i < j < |q| ==> q[i] != q[j]
  }

  /** The elements of a sequence, forgetting order and multiplicity. */
  function Elems(q: seq<int>): set<int> {
    set x | x in q
  }

  lemma ElemsConcat(a: seq<int>, b: seq<int>)
    ensures Elems(a + b) == Elems(a) + Elems(b)
  {
  }

  /** Growing a sequence at the back adds its last element. */
  lemma ElemsSnoc(q: seq<int>)
    requires q != []
    ensures Elems(q) == Elems(q[..|q| - 1]) + {q[|q| - 1]}
  {
    assert q == q[..|q| - 1] + [q[|q| - 1]];
    ElemsConcat(q[..|q| - 1], [q[|q| - 1]]);
  }

  /** Dropping the front keeps a sequence duplicate-free and adds nothing. */
  lemma DropFirst(q: seq<int>)
    requires q != []
    ensures Elems(q[1..]) <= Elems(q)
    ensures NoDup(q) ==> NoDup(q[1..]) && q[0] !in q[1..]
  {
    assert q == [q[0]] + q[1..];
  }

  /** Appending a fresh element keeps a sequence duplicate-free. */
  lemma AppendFresh(q: seq<int>, x: int)
    requires NoDup(q) && x !in q
    ensures NoDup(q + [x])
    ensures Elems(q + [x]) == Elems(q) + {x}
  {
    ElemsConcat(q, [x]);
  }

  /** The elements of `q` other than `x`, in their original order. */
  function Without(q: seq<int>, x: int): (r: seq<int>)
    ensures forall y :: y in r <==> y in q && y != x
    ensures |r| <= |q|
    ensures NoDup(q) ==> NoDup(r)
    decreases |q|
  {
    if q == [] then []
    else
      var rest := Without(q[1..], x);
      assert NoDup(q) ==> q[0] !in q[1..];
      if q[0] == x then rest else [q[0]] + rest
  }

  lemma WithoutAbsent(q: seq<int>, x: int)
    requires x !in q
    ensures Without(q, x) == q
    decreases |q|
  {
    if q != [] {
      WithoutAbsent(q[1..], x);
      assert q == [q[0]] + q[1..];
    }
  }

  /** A duplicate-free sequence has as many elements as its length. */
  lemma {:induction false} NoDupCard(q: seq<int>)
    requires NoDup(q)
    ensures |Elems(q)| == |q|
    decreases |q|
  {
    if q != [] {
      var rest := q[1..];
      assert NoDup(rest);
      NoDupCard(rest);
      assert Elems(q) == Elems(rest) + {q[0]};
      assert q[0] !in Elems(rest);
    }
  }

  /** A subset is no larger than its superset. */
  lemma SubsetCard(a: set<int>, b: set<int>)
    requires a <= b
    ensures |a| <= |b|
  {
    assert b == a + (b - a);
  }

  /** The elements of a prefix are elements of the whole. */
  lemma PrefixElems(q: seq<int>, n: nat)
    requires n <= |q|
    ensures Elems(q[..n]) <= Elems(q)
  {
    forall x | x in Elems(q[..n]) ensures x in Elems(q) {
      var i :| 0 <= i < n && q[..n][i] == x;
      assert q[i] == x;
    }
  }

  /** Cutting out position `i` keeps every other element, and in a
      duplicate-free sequence loses exactly the element at `i`. */
  lemma Splice(q: seq<int>, i: nat)
    requires i < |q|
    ensures forall y :: y in q[..i] + q[i + 1..] ==> y in q
    ensures forall y :: y in q && y != q[i] ==> y in q[..i] + q[i + 1..]
    ensures NoDup(q) ==> NoDup(q[..i] + q[i + 1..]) && q[i] !in q[..i] + q[i + 1..]
  {
    var r := q[..i] + q[i + 1..];
    assert forall j :: 0 <= j < |r| ==> r[j] == if j < i then q[j] else q[j + 1];
    forall y | y in q && y != q[i] ensures y in r {
      var j :| 0 <= j < |q| && q[j] == y;
      if j < i { assert r[j] == y; } else { assert r[j - 1] == y; }
    }
  }
}
