/** `wtiny_lfu_cache_simulation` (app.py:102-127): a resident `set` next to a
    `defaultdict(int)` of access counts. Exact counts stand in for the
    frequency sketch of canonical W-TinyLFU, and there is no window or
    admission filter, so the policy turns out to be LFU kept in two
    structures. */
module WTinyLfu {
  import opened Seqs
  import opened Dict
  import opened Cache
  import Lfu

  /** The resident set and the count table. */
  datatype State = State(cache: set<int>, frequency: Table)

  const Empty := State({}, [])

  /** The state after one access, and what the access was. */
  datatype Next = Next(state: State, outcome: Outcome)

  /** One loop iteration (app.py:108-119). Membership is decided by the set;
      the victim is the first least-counted key of the table, and it must
      also be in the set for `cache.remove` to succeed. */
  function Step(s: State, page: int, cap: int): (r: Result<Next>)
    ensures r.Ok? ==> (r.value.outcome == Hit <==> page in s.cache)
    ensures r.Ok? ==> page in r.value.state.cache && HasKey(r.value.state.frequency, page)
  {
    if page in s.cache then
      Ok(Next(s.(frequency := Put(s.frequency, page, GetOrZero(s.frequency, page) + 1)), Hit))
    else if |s.cache| >= cap then
      if s.frequency == [] then Err(MinOfEmpty)
      else
        var victim := s.frequency[FirstMin(s.frequency)].0;
        if victim !in s.cache then Err(MissingKey)
        else Ok(Next(State(s.cache - {victim} + {page}, Put(Delete(s.frequency, victim), page, 1)), MissWithEviction))
    else
      Ok(Next(State(s.cache + {page}, Put(s.frequency, page, 1)), Miss))
  }

  /** The set holds exactly the keys of the table, and the table is the
      one the LFU simulation would hold. */
  predicate Mirrors(s: State, table: Table) {
    s.frequency == table && s.cache == Elems(Keys(table))
  }

  lemma KeySet(d: Table, k: int)
    ensures k in Elems(Keys(d)) <==> HasKey(d, k)
  {
  }

  /** Both simulations agree on the step: same failure, or same outcome
      and mirrored successor states. */
  predicate Agree(w: Result<Next>, l: Result<Lfu.Next>) {
    && (w.Err? <==> l.Err?)
    && (w.Err? ==> w.error == l.error)
    && (w.Ok? ==> w.value.outcome == l.value.outcome && Mirrors(w.value.state, l.value.table))
  }

  lemma HitMatchesLfu(s: State, table: Table, page: int, cap: int)
    requires Valid(table) && Mirrors(s, table) && HasKey(table, page)
    ensures Agree(Step(s, page, cap), Lfu.Step(table, page, cap))
  {
    KeySet(table, page);
    var after := Lfu.Step(table, page, cap).value.table;
    assert Step(s, page, cap).value.state.frequency == after;
    forall k ensures k in s.cache <==> k in Elems(Keys(after)) {
      KeySet(after, k);
      KeySet(table, k);
    }
  }

  lemma MissMatchesLfu(s: State, table: Table, page: int, cap: int)
    requires Valid(table) && Mirrors(s, table) && !HasKey(table, page) && |table| < cap
    ensures Agree(Step(s, page, cap), Lfu.Step(table, page, cap))
  {
    KeySet(table, page);
    NoDupCard(Keys(table));
    var after := Lfu.Step(table, page, cap).value.table;
    assert after == Put(table, page, 1);
    forall k ensures k in s.cache + {page} <==> k in Elems(Keys(after)) {
      KeySet(after, k);
      KeySet(table, k);
    }
  }

  lemma EvictionMatchesLfu(s: State, table: Table, page: int, cap: int)
    requires Valid(table) && Mirrors(s, table) && !HasKey(table, page) && |table| >= cap
    ensures Agree(Step(s, page, cap), Lfu.Step(table, page, cap))
  {
    KeySet(table, page);
    NoDupCard(Keys(table));
    if table != [] {
      var victim := table[FirstMin(table)].0;
      assert Keys(table)[FirstMin(table)] == victim;
      KeySet(table, victim);
      var after := Lfu.Step(table, page, cap).value.table;
      assert after == Put(Delete(table, victim), page, 1);
      forall k ensures k in s.cache - {victim} + {page} <==> k in Elems(Keys(after)) {
        KeySet(after, k);
        KeySet(table, k);
      }
    }
  }

  /** From mirrored states, one step of each simulation fails alike or
      reports the same outcome and again leaves mirrored states. */
  lemma StepMatchesLfu(s: State, table: Table, page: int, cap: int)
    requires Valid(table) && Mirrors(s, table)
    ensures Agree(Step(s, page, cap), Lfu.Step(table, page, cap))
  {
    if HasKey(table, page) {
      HitMatchesLfu(s, table, page, cap);
    } else if |table| < cap {
      MissMatchesLfu(s, table, page, cap);
    } else {
      EvictionMatchesLfu(s, table, page, cap);
    }
  }

  /** The set and the table after a prefix of the trace. */
  datatype Snapshot = Snapshot(state: State, counters: Counters)

  /** The loop of app.py:106-119 over `trace`, folded from empty structures. */
  function Run(trace: seq<int>, cap: int): (r: Result<Snapshot>)
    ensures r.Ok? ==> r.value.counters.hit + r.value.counters.miss == |trace|
    ensures r.Ok? ==> r.value.counters.evictions <= r.value.counters.miss
    decreases |trace|
  {
    if trace == [] then Ok(Snapshot(Empty, NoAccesses))
    else
      var prior :- Run(trace[..|trace| - 1], cap);
      var next :- Step(prior.state, trace[|trace| - 1], cap);
      Ok(Snapshot(next.state, Tally(prior.counters, next.outcome)))
  }

  /** Every table the LFU simulation reaches is a well-formed dict. */
  lemma LfuRunValid(trace: seq<int>, cap: int)
    requires Lfu.Run(trace, cap).Ok?
    ensures Valid(Lfu.Run(trace, cap).value.table)
  {
    if cap > 0 {
      Lfu.RunInvariant(trace, cap);
    } else if trace != [] {
      Lfu.RunFailsWithoutCapacity(trace, cap);
    }
  }

  /** On the same trace and capacity the two simulations fail alike or
      count the same hits, misses and evictions, with the same ordered
      count table and a resident set equal to its keys. */
  lemma {:induction false} RunMatchesLfu(trace: seq<int>, cap: int)
    ensures Run(trace, cap).Err? <==> Lfu.Run(trace, cap).Err?
    ensures Run(trace, cap).Err? ==> Run(trace, cap).error == Lfu.Run(trace, cap).error
    ensures Run(trace, cap).Ok? ==>
      && Run(trace, cap).value.counters == Lfu.Run(trace, cap).value.counters
      && Mirrors(Run(trace, cap).value.state, Lfu.Run(trace, cap).value.table)
    decreases |trace|
  {
    if trace != [] {
      var prefix := trace[..|trace| - 1];
      RunMatchesLfu(prefix, cap);
      if Run(prefix, cap).Ok? {
        LfuRunValid(prefix, cap);
        var prior := Run(prefix, cap).value;
        var lprior := Lfu.Run(prefix, cap).value;
        StepMatchesLfu(prior.state, lprior.table, trace[|trace| - 1], cap);
      }
    }
  }

  /** The key set of `frequency` always equals `cache`. */
  lemma KeysMatchCache(trace: seq<int>, cap: int)
    requires Run(trace, cap).Ok?
    ensures Elems(Keys(Run(trace, cap).value.state.frequency)) == Run(trace, cap).value.state.cache
    ensures Valid(Run(trace, cap).value.state.frequency)
  {
    RunMatchesLfu(trace, cap);
    LfuRunValid(trace, cap);
  }

  /** With a positive capacity the run completes, holds `min(miss, cap)`
      pages and has evicted `max(0, miss - cap)` times; a capacity covering
      all 101 pages never evicts. */
  lemma RunSizeLaw(trace: seq<int>, cap: int)
    requires cap > 0
    ensures Run(trace, cap).Ok?
    ensures SizeLaw(|Run(trace, cap).value.state.cache|, Run(trace, cap).value.counters, cap)
    ensures IsTrace(trace) && cap > MaxPage ==> Run(trace, cap).value.counters.evictions == 0
  {
    RunMatchesLfu(trace, cap);
    Lfu.RunInvariant(trace, cap);
    NoDupCard(Keys(Lfu.Run(trace, cap).value.table));
    if IsTrace(trace) && cap > MaxPage {
      Lfu.NoEvictionsWhenUniverseFits(trace, cap);
    }
  }

  /** `wtiny_lfu_cache_simulation(len(trace), cap)` with `trace` as the
      drawn pages. */
  function Simulate(trace: seq<int>, cap: int): (r: Result<Metrics>)
    ensures r.Ok? <==> trace != [] && cap > 0
    ensures trace == [] ==> r == Err(ZeroDivision)
    ensures trace != [] && cap <= 0 ==> r == Err(MinOfEmpty)
    ensures r.Ok? ==> RatesConsistent(r.value) && 0.0 <= r.value.memoryUsage <= 1.0
    ensures r.Ok? ==> Run(trace, cap).Ok?
    ensures r.Ok? ==> Measures(r.value, Run(trace, cap).value.counters, |trace|, |Run(trace, cap).value.state.cache|, cap)
    ensures r.Ok? ==> r.value.timeComplexity == "O(1)"
  {
    RunMatchesLfu(trace, cap);
    assert cap > 0 ==> Run(trace, cap).Ok? && |Run(trace, cap).value.state.cache| <= cap by {
      if cap > 0 { RunSizeLaw(trace, cap); }
    }
    assert trace != [] && cap <= 0 ==> Run(trace, cap) == Err(MinOfEmpty) by {
      if trace != [] && cap <= 0 { Lfu.RunFailsWithoutCapacity(trace, cap); }
    }
    var final :- Run(trace, cap);
    Report(final.counters, |trace|, |final.state.cache|, cap, "O(1)")
  }

  /** Apart from the complexity label the two simulations return the same
      result on the same trace and capacity. */
  lemma SameMetricsAsLfu(trace: seq<int>, cap: int)
    ensures Simulate(trace, cap).Err? <==> Lfu.Simulate(trace, cap).Err?
    ensures Simulate(trace, cap).Err? ==> Simulate(trace, cap).error == Lfu.Simulate(trace, cap).error
    ensures Simulate(trace, cap).Ok? ==>
      Simulate(trace, cap).value == Lfu.Simulate(trace, cap).value.(timeComplexity := "O(1)")
  {
    RunMatchesLfu(trace, cap);
    if Run(trace, cap).Ok? {
      LfuRunValid(trace, cap);
      NoDupCard(Keys(Lfu.Run(trace, cap).value.table));
    }
  }
}
