/** Python's `dict` from page to access count. Dicts iterate in insertion
    order and that order decides ties in `min`, so a dict is modelled as its
    list of entries in insertion order. */
module Dict {
  import opened Seqs

  type Table = seq<(int, int)>

  function Keys(d: Table): (ks: seq<int>)
    ensures |ks| == |d|
    ensures forall i :: 0 <= i < |d| ==> ks[i] == d[i].0
  {
    seq(|d|, i requires 0 <= i < |d| => d[i].0)
  }

  predicate HasKey(d: Table, k: int) {
    k in Keys(d)
  }

  /** A dict holds each key once. */
  predicate Valid(d: Table) {
    NoDup(Keys(d))
  }

  /** Position of the entry for `k`. */
  function IndexOf(d: Table, k: int): (i: nat)
    requires HasKey(d, k)
    ensures i < |d| && d[i].0 == k
    ensures forall j :: 0 <= j < i ==> d[j].0 != k
    decreases |d|
  {
    if d[0].0 == k then 0
    else
      assert HasKey(d[1..], k) by {
        var i :| 0 <= i < |d| && Keys(d)[i] == k;
        assert Keys(d[1..])[i - 1] == k;
      }
      1 + IndexOf(d[1..], k)
  }

  /** The first entry carrying `k` is the one IndexOf finds. */
  lemma IndexOfIs(d: Table, k: int, i: nat)
    requires i < |d| && d[i].0 == k
    requires forall j :: 0 <= j < i ==> d[j].0 != k
    ensures HasKey(d, k) && IndexOf(d, k) == i
  {
    assert Keys(d)[i] == k;
  }

  /** `d[k]`, for a key that is present. */
  function Get(d: Table, k: int): (v: int)
    requires HasKey(d, k)
    ensures (k, v) in d
  {
    d[IndexOf(d, k)].1
  }

  /** `d[k]` on a `defaultdict(int)`: a missing key reads as 0. */
  function GetOrZero(d: Table, k: int): (v: int)
    ensures !HasKey(d, k) ==> v == 0
    ensures HasKey(d, k) ==> (k, v) in d
  {
    if HasKey(d, k) then Get(d, k) else 0
  }

  /** `d[k] = v`: an existing entry is overwritten where it stands, a new key
      goes to the end. */
  function Put(d: Table, k: int, v: int): (r: Table)
    ensures HasKey(d, k) ==> |r| == |d| && Keys(r) == Keys(d)
    ensures !HasKey(d, k) ==> r == d + [(k, v)]
    ensures HasKey(r, k) && Get(r, k) == v
    ensures forall j :: 0 <= j < |d| && d[j].0 != k ==> r[j] == d[j]
    ensures forall k' :: k' != k ==> (HasKey(r, k') <==> HasKey(d, k'))
    ensures forall k' :: k' != k && HasKey(d, k') ==> Get(r, k') == Get(d, k')
    ensures Valid(d) ==> Valid(r)
  {
    if HasKey(d, k) then
      var i := IndexOf(d, k);
      var r := d[i := (k, v)];
      IndexOfIs(r, k, i);
      assert Keys(r) == Keys(d);
      forall k' | k' != k && HasKey(d, k') ensures Get(r, k') == Get(d, k') {
        IndexOfIs(r, k', IndexOf(d, k'));
      }
      r
    else
      var r := d + [(k, v)];
      IndexOfIs(r, k, |d|);
      assert Keys(r) == Keys(d) + [k];
      forall k' | k' != k && HasKey(d, k') ensures Get(r, k') == Get(d, k') {
        IndexOfIs(r, k', IndexOf(d, k'));
      }
      r
  }

  /** `del d[k]`: the entry for `k` leaves and the others keep their order. */
  function Delete(d: Table, k: int): (r: Table)
    requires HasKey(d, k)
    ensures |r| == |d| - 1
    ensures Valid(d) ==> Valid(r) && !HasKey(r, k)
    ensures forall k' :: k' != k ==> (HasKey(r, k') <==> HasKey(d, k'))
    ensures forall k' :: k' != k && HasKey(d, k') ==> Get(r, k') == Get(d, k')
  {
    var i := IndexOf(d, k);
    var r := d[..i] + d[i + 1..];
    assert Keys(r) == Keys(d)[..i] + Keys(d)[i + 1..];
    Splice(Keys(d), i);
    forall k' | k' != k && HasKey(d, k') ensures Get(r, k') == Get(d, k') {
      SpliceGet(d, i, k');
    }
    r
  }

  /** Cutting out entry `i` leaves the value of every other key in place. */
  lemma SpliceGet(d: Table, i: nat, k: int)
    requires i < |d| && HasKey(d, k) && d[i].0 != k
    ensures HasKey(d[..i] + d[i + 1..], k)
    ensures Get(d[..i] + d[i + 1..], k) == Get(d, k)
  {
    var r := d[..i] + d[i + 1..];
    var j := IndexOf(d, k);
    if j < i {
      IndexOfIs(r, k, j);
    } else {
      IndexOfIs(r, k, j - 1);
    }
  }

  /** In a well-formed table, deleting the key of entry `i` cuts out
      exactly that entry. */
  lemma DeleteAt(d: Table, i: nat)
    requires Valid(d) && i < |d|
    ensures HasKey(d, d[i].0)
    ensures Delete(d, d[i].0) == d[..i] + d[i + 1..]
  {
    assert forall j :: 0 <= j < i ==> Keys(d)[j] != Keys(d)[i];
    IndexOfIs(d, d[i].0, i);
  }

  /** Entry `i` carries the smallest value, and no earlier entry does. */
  predicate IsFirstMin(d: Table, i: int) {
    && 0 <= i < |d|
    && (forall j :: 0 <= j < |d| ==> d[i].1 <= d[j].1)
    && (forall j :: 0 <= j < i ==> d[i].1 < d[j].1)
  }

  /** `min(d, key=d.get)`: walks the keys in order and replaces its candidate
      only on a strictly smaller value, so it returns the first minimum. */
  function FirstMin(d: Table): (i: nat)
    requires |d| > 0
    ensures IsFirstMin(d, i)
    decreases |d|
  {
    if |d| == 1 then 0
    else
      var j := FirstMin(d[..|d| - 1]);
      if d[|d| - 1].1 < d[j].1 then |d| - 1 else j
  }
}
