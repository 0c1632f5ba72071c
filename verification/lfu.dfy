/** `lfu_cache_simulation` (app.py:40-62): a `defaultdict(int)` from resident
    page to access count. A full cache evicts `min(cache, key=cache.get)`,
    the first page in insertion order among those with the smallest count. */
module Lfu {
  import opened Seqs
  import opened Dict
  import opened Cache

  /** The table after one access, and what the access was. */
  datatype Next = Next(table: Table, outcome: Outcome)

  /** One loop iteration (app.py:45-54). A hit bumps the page's count; a
      miss on a full table first deletes the least frequently used page and
      then enters the new page with count 1. */
  function Step(table: Table, page: int, cap: int): (r: Result<Next>)
    ensures r.Err? <==> table == [] && cap <= 0
    ensures r.Err? ==> r.error == MinOfEmpty
    ensures r.Ok? ==> (r.value.outcome == Hit <==> HasKey(table, page))
    ensures r.Ok? ==> (r.value.outcome == MissWithEviction <==> !HasKey(table, page) && |table| >= cap)
    ensures r.Ok? ==> HasKey(r.value.table, page)
  {
    if HasKey(table, page) then
      Ok(Next(Put(table, page, Get(table, page) + 1), Hit))
    else if |table| >= cap then
      if table == [] then Err(MinOfEmpty)
      else
        var victim := table[FirstMin(table)].0;
        Ok(Next(Put(Delete(table, victim), page, 1), MissWithEviction))
    else
      Ok(Next(Put(table, page, 1), Miss))
  }

  /** Every count is at least 1. */
  predicate Positive(table: Table) {
    forall i :: 0 <= i < |table| ==> table[i].1 >= 1
  }

  /** A well-formed dict within capacity whose counts are all positive. */
  predicate Inv(table: Table, cap: int) {
    Valid(table) && |table| <= cap && Positive(table)
  }

  /** A hit increments the requested page's count and nothing else: the
      keys, their order and every other count stay as they were. */
  lemma HitIncrements(table: Table, page: int, cap: int)
    requires Valid(table) && HasKey(table, page)
    ensures Step(table, page, cap).Ok?
    ensures Keys(Step(table, page, cap).value.table) == Keys(table)
    ensures Get(Step(table, page, cap).value.table, page) == Get(table, page) + 1
    ensures forall k :: (k != page && HasKey(table, k) ==>
                         Get(Step(table, page, cap).value.table, k) == Get(table, k))
  {
  }

  /** A miss below capacity appends the page with count 1. */
  lemma MissAppends(table: Table, page: int, cap: int)
    requires !HasKey(table, page) && |table| < cap
    ensures Step(table, page, cap) == Ok(Next(table + [(page, 1)], Miss))
  {
  }

  /** The table after an eviction: the first least-counted entry cut out,
      the page appended with count 1. */
  lemma EvictionShape(table: Table, page: int, cap: int)
    requires Valid(table) && !HasKey(table, page) && |table| >= cap && table != []
    ensures Step(table, page, cap).Ok?
    ensures Step(table, page, cap).value.table
            == table[..FirstMin(table)] + table[FirstMin(table) + 1..] + [(page, 1)]
  {
    var i := FirstMin(table);
    var victim := table[i].0;
    DeleteAt(table, i);
    DeleteKeepsAbsent(table, victim, page);
  }

  lemma DeleteKeepsAbsent(table: Table, victim: int, page: int)
    requires HasKey(table, victim) && !HasKey(table, page)
    ensures !HasKey(Delete(table, victim), page)
  {
  }

  /** A miss at capacity deletes the entry with the smallest count that
      comes first in insertion order, then appends the page with count 1. */
  lemma EvictsFirstMinimum(table: Table, page: int, cap: int)
    requires Valid(table) && !HasKey(table, page) && |table| >= cap && table != []
    ensures Step(table, page, cap).Ok?
    ensures exists i :: (IsFirstMin(table, i) &&
                         Step(table, page, cap).value.table == table[..i] + table[i + 1..] + [(page, 1)])
  {
    EvictionShape(table, page, cap);
    assert IsFirstMin(table, FirstMin(table));
  }

  /** Cutting one entry out of a well-formed table and appending a fresh
      key keeps it well formed and adds no other key. */
  lemma SpliceAppendKeys(table: Table, i: nat, page: int, v: int)
    requires i < |table| && Valid(table) && !HasKey(table, page)
    ensures Valid(table[..i] + table[i + 1..] + [(page, v)])
    ensures Elems(Keys(table[..i] + table[i + 1..] + [(page, v)])) <= Elems(Keys(table)) + {page}
  {
    var after := table[..i] + table[i + 1..] + [(page, v)];
    assert Keys(after) == Keys(table)[..i] + Keys(table)[i + 1..] + [page];
    Splice(Keys(table), i);
    assert forall k :: k in Keys(after) ==> k in Keys(table) || k == page;
  }

  /** Cutting one entry out of a table with positive counts and appending
      one with count 1 keeps every count positive. */
  lemma SpliceAppendPositive(table: Table, i: nat, page: int)
    requires i < |table| && Positive(table)
    ensures Positive(table[..i] + table[i + 1..] + [(page, 1)])
  {
    var after := table[..i] + table[i + 1..] + [(page, 1)];
    forall j | 0 <= j < |after| ensures after[j].1 >= 1 {
      if j < i {
        assert after[j] == table[j];
      } else if j < |table| - 1 {
        assert after[j] == table[j + 1];
      }
    }
  }

  /** A hit keeps every count positive, and the keys as they were. */
  lemma HitKeepsInv(table: Table, page: int, cap: int)
    requires cap > 0 && Inv(table, cap) && HasKey(table, page)
    ensures Inv(Step(table, page, cap).value.table, cap)
    ensures Keys(Step(table, page, cap).value.table) == Keys(table)
  {
    HitIncrements(table, page, cap);
    var after := Step(table, page, cap).value.table;
    forall i | 0 <= i < |after| ensures after[i].1 >= 1 {
      var k := after[i].0;
      assert Keys(after)[i] == k;
      IndexOfIs(after, k, i) by {
        assert forall j :: 0 <= j < i ==> Keys(after)[j] != Keys(after)[i];
      }
      IndexOfIs(table, k, i) by {
        assert forall j :: 0 <= j < i ==> Keys(table)[j] != Keys(table)[i];
      }
    }
  }

  /** An eviction keeps the invariant and trades one key for the page. */
  lemma EvictionKeepsInv(table: Table, page: int, cap: int)
    requires cap > 0 && Inv(table, cap) && !HasKey(table, page) && |table| >= cap
    ensures Inv(Step(table, page, cap).value.table, cap)
    ensures |Step(table, page, cap).value.table| == |table|
    ensures Elems(Keys(Step(table, page, cap).value.table)) <= Elems(Keys(table)) + {page}
  {
    EvictionShape(table, page, cap);
    SpliceAppendKeys(table, FirstMin(table), page, 1);
    SpliceAppendPositive(table, FirstMin(table), page);
  }

  /** A step from a well-formed table with positive capacity succeeds,
      keeps the invariant, adds no page but the requested one, and changes
      the table's size as the size law demands. */
  lemma StepKeepsInv(table: Table, page: int, cap: int)
    requires cap > 0 && Inv(table, cap)
    ensures Step(table, page, cap).Ok?
    ensures Inv(Step(table, page, cap).value.table, cap)
    ensures Elems(Keys(Step(table, page, cap).value.table)) <= Elems(Keys(table)) + {page}
    ensures Disciplined(|table|, |Step(table, page, cap).value.table|, Step(table, page, cap).value.outcome, cap)
  {
    if HasKey(table, page) {
      HitKeepsInv(table, page, cap);
    } else if |table| >= cap {
      EvictionKeepsInv(table, page, cap);
    } else {
      MissAppends(table, page, cap);
      var after := Step(table, page, cap).value.table;
      assert Keys(after) == Keys(table) + [page];
    }
  }

  /** The table and the counters after a prefix of the trace. */
  datatype Snapshot = Snapshot(table: Table, counters: Counters)

  /** The loop of app.py:43-54 over `trace`, folded from an empty dict. */
  function Run(trace: seq<int>, cap: int): (r: Result<Snapshot>)
    ensures r.Ok? ==> r.value.counters.hit + r.value.counters.miss == |trace|
    ensures r.Ok? ==> r.value.counters.evictions <= r.value.counters.miss
    decreases |trace|
  {
    if trace == [] then Ok(Snapshot([], NoAccesses))
    else
      var prior :- Run(trace[..|trace| - 1], cap);
      var next :- Step(prior.table, trace[|trace| - 1], cap);
      Ok(Snapshot(next.table, Tally(prior.counters, next.outcome)))
  }

  /** With a non-positive capacity the very first access asks for the
      minimum of an empty dict. */
  lemma {:induction false} RunFailsWithoutCapacity(trace: seq<int>, cap: int)
    requires cap <= 0 && trace != []
    ensures Run(trace, cap) == Err(MinOfEmpty)
    decreases |trace|
  {
    if |trace| > 1 {
      RunFailsWithoutCapacity(trace[..|trace| - 1], cap);
    }
  }

  /** With a positive capacity every prefix runs to completion, keeps the
      invariant, holds only requested pages and obeys the size law. */
  lemma {:induction false} RunInvariant(trace: seq<int>, cap: int)
    requires cap > 0
    ensures Run(trace, cap).Ok?
    ensures Inv(Run(trace, cap).value.table, cap)
    ensures Elems(Keys(Run(trace, cap).value.table)) <= Elems(trace)
    ensures SizeLaw(|Run(trace, cap).value.table|, Run(trace, cap).value.counters, cap)
    decreases |trace|
  {
    if trace != [] {
      var prefix := trace[..|trace| - 1];
      RunInvariant(prefix, cap);
      PrefixElems(trace, |trace| - 1);
      var prior := Run(prefix, cap).value;
      var page := trace[|trace| - 1];
      assert page in Elems(trace);
      StepKeepsInv(prior.table, page, cap);
      var next := Step(prior.table, page, cap).value;
      assert Run(trace, cap) == Ok(Snapshot(next.table, Tally(prior.counters, next.outcome)));
      SizeLawStep(|prior.table|, |next.table|, prior.counters, next.outcome, cap);
    }
  }

  /** With a capacity covering all 101 pages, no page is ever evicted. */
  lemma {:induction false} NoEvictionsWhenUniverseFits(trace: seq<int>, cap: int)
    requires IsTrace(trace) && cap > MaxPage
    ensures Run(trace, cap).Ok? && Run(trace, cap).value.counters.evictions == 0
    decreases |trace|
  {
    RunInvariant(trace, cap);
    if trace != [] {
      var prefix := trace[..|trace| - 1];
      NoEvictionsWhenUniverseFits(prefix, cap);
      RunInvariant(prefix, cap);
      var prior := Run(prefix, cap).value;
      var page := trace[|trace| - 1];
      if !HasKey(prior.table, page) {
        PrefixElems(trace, |trace| - 1);
        NoDupCard(Keys(prior.table));
        MissBelowUniverse(Elems(Keys(prior.table)), page, cap);
      }
    }
  }

  /** `lfu_cache_simulation(len(trace), cap)` with `trace` as the drawn pages. */
  function Simulate(trace: seq<int>, cap: int): (r: Result<Metrics>)
    ensures r.Ok? <==> trace != [] && cap > 0
    ensures trace == [] ==> r == Err(ZeroDivision)
    ensures trace != [] && cap <= 0 ==> r == Err(MinOfEmpty)
    ensures r.Ok? ==> RatesConsistent(r.value) && 0.0 <= r.value.memoryUsage <= 1.0
    ensures r.Ok? ==> Run(trace, cap).Ok?
    ensures r.Ok? ==> Measures(r.value, Run(trace, cap).value.counters, |trace|, |Run(trace, cap).value.table|, cap)
    ensures r.Ok? ==> r.value.timeComplexity == "O(log n)"
  {
    assert cap > 0 ==> Run(trace, cap).Ok? && |Run(trace, cap).value.table| <= cap by {
      if cap > 0 { RunInvariant(trace, cap); }
    }
    assert trace != [] && cap <= 0 ==> Run(trace, cap) == Err(MinOfEmpty) by {
      if trace != [] && cap <= 0 { RunFailsWithoutCapacity(trace, cap); }
    }
    var final :- Run(trace, cap);
    Report(final.counters, |trace|, |final.table|, cap, "O(log n)")
  }
}
