/** `random_cache_simulation` (app.py:129-149): a resident `set`; a miss on a
    full set first drops the page `set.pop()` hands back. Which page that is
    depends on the interpreter's hash table layout and on where earlier pops
    left its search finger, so the model takes it from a chooser: any
    function of the step index and the resident set that picks a member.
    For a fixed trace, every sequence of victims is such a function. */
module RandomCache {
  import opened Seqs
  import opened Cache

  /** At every step, `pop` picks some member of every nonempty set. */
  ghost predicate Chooser(pop: (nat, set<int>) -> int) {
    forall i: nat, s: set<int> :: s != {} ==> pop(i, s) in s
  }

  /** The set after one access, and what the access was. */
  datatype Next = Next(cache: set<int>, outcome: Outcome)

  /** One loop iteration (app.py:132-141). A miss on a full set pops a
      page, which fails on an empty set (only possible with a capacity of
      0 or less), and then adds the requested page. */
  function Step(cache: set<int>, page: int, cap: int, pop: (nat, set<int>) -> int, at: nat): (r: Result<Next>)
    requires Chooser(pop)
    ensures r.Err? <==> page !in cache && cache == {} && cap <= 0
    ensures r.Err? ==> r.error == EmptySetPop
    ensures r.Ok? ==> (r.value.outcome == Hit <==> page in cache)
    ensures r.Ok? ==> (r.value.outcome == MissWithEviction <==> page !in cache && |cache| >= cap)
    ensures r.Ok? ==> page in r.value.cache && r.value.cache <= cache + {page}
    ensures r.Ok? ==> Disciplined(|cache|, |r.value.cache|, r.value.outcome, cap)
  {
    if page in cache then Ok(Next(cache, Hit))
    else if |cache| >= cap then
      if cache == {} then Err(EmptySetPop)
      else
        var victim := pop(at, cache);
        assert |cache - {victim}| == |cache| - 1;
        Ok(Next(cache - {victim} + {page}, MissWithEviction))
    else Ok(Next(cache + {page}, Miss))
  }

  /** A hit changes nothing; a miss below capacity only adds the page; a
      miss at capacity trades exactly one resident page for the new one. */
  lemma StepChanges(cache: set<int>, page: int, cap: int, pop: (nat, set<int>) -> int, at: nat)
    requires Chooser(pop) && Step(cache, page, cap, pop, at).Ok?
    ensures page in cache ==> Step(cache, page, cap, pop, at).value.cache == cache
    ensures page !in cache && |cache| < cap ==> Step(cache, page, cap, pop, at).value.cache == cache + {page}
    ensures page !in cache && |cache| >= cap ==>
      exists v :: v in cache && Step(cache, page, cap, pop, at).value.cache == cache - {v} + {page}
  {
    if page !in cache && |cache| >= cap {
      var v := pop(at, cache);
      assert v in cache;
    }
  }

  /** The set and the counters after a prefix of the trace. */
  datatype Snapshot = Snapshot(cache: set<int>, counters: Counters)

  /** The loop of app.py:132-141 over `trace`, folded from an empty set. */
  function Run(trace: seq<int>, cap: int, pop: (nat, set<int>) -> int): (r: Result<Snapshot>)
    requires Chooser(pop)
    ensures r.Ok? ==> r.value.counters.hit + r.value.counters.miss == |trace|
    ensures r.Ok? ==> r.value.counters.evictions <= r.value.counters.miss
    decreases |trace|
  {
    if trace == [] then Ok(Snapshot({}, NoAccesses))
    else
      var prior :- Run(trace[..|trace| - 1], cap, pop);
      var next :- Step(prior.cache, trace[|trace| - 1], cap, pop, |trace| - 1);
      Ok(Snapshot(next.cache, Tally(prior.counters, next.outcome)))
  }

  /** With a capacity of 0 or less the first access pops the empty set. */
  lemma {:induction false} RunFailsWithoutCapacity(trace: seq<int>, cap: int, pop: (nat, set<int>) -> int)
    requires Chooser(pop) && cap <= 0 && trace != []
    ensures Run(trace, cap, pop) == Err(EmptySetPop)
    decreases |trace|
  {
    if |trace| > 1 {
      RunFailsWithoutCapacity(trace[..|trace| - 1], cap, pop);
    }
  }

  /** With a positive capacity, whatever the chooser, every prefix runs to
      completion, holds only requested pages including the latest one, and
      obeys the size law. */
  lemma {:induction false} RunInvariant(trace: seq<int>, cap: int, pop: (nat, set<int>) -> int)
    requires Chooser(pop) && cap > 0
    ensures Run(trace, cap, pop).Ok?
    ensures Run(trace, cap, pop).value.cache <= Elems(trace)
    ensures trace != [] ==> trace[|trace| - 1] in Run(trace, cap, pop).value.cache
    ensures SizeLaw(|Run(trace, cap, pop).value.cache|, Run(trace, cap, pop).value.counters, cap)
    decreases |trace|
  {
    if trace != [] {
      var prefix := trace[..|trace| - 1];
      RunInvariant(prefix, cap, pop);
      PrefixElems(trace, |trace| - 1);
      var prior := Run(prefix, cap, pop).value;
      var page := trace[|trace| - 1];
      assert page in Elems(trace);
      var next := Step(prior.cache, page, cap, pop, |trace| - 1).value;
      assert Run(trace, cap, pop) == Ok(Snapshot(next.cache, Tally(prior.counters, next.outcome)));
      SizeLawStep(|prior.cache|, |next.cache|, prior.counters, next.outcome, cap);
    }
  }

  /** With a capacity covering all 101 pages nothing is ever evicted, the
      set ends up holding exactly the distinct requested pages, and the
      chooser makes no difference. */
  lemma {:induction false} UniverseFits(trace: seq<int>, cap: int, pop: (nat, set<int>) -> int, pop': (nat, set<int>) -> int)
    requires Chooser(pop) && Chooser(pop') && IsTrace(trace) && cap > MaxPage
    ensures Run(trace, cap, pop).Ok?
    ensures Run(trace, cap, pop).value.counters.evictions == 0
    ensures Run(trace, cap, pop).value.cache == Elems(trace)
    ensures Run(trace, cap, pop) == Run(trace, cap, pop')
    decreases |trace|
  {
    if trace != [] {
      var prefix := trace[..|trace| - 1];
      UniverseFits(prefix, cap, pop, pop');
      var prior := Run(prefix, cap, pop).value;
      var page := trace[|trace| - 1];
      ElemsSnoc(trace);
      if page !in prior.cache {
        TraceInUniverse(prefix);
        MissBelowUniverse(prior.cache, page, cap);
      }
    }
  }

  /** `random_cache_simulation(len(trace), cap)` with `trace` as the drawn
      pages and `pop` standing for `set.pop()`. */
  function Simulate(trace: seq<int>, cap: int, pop: (nat, set<int>) -> int): (r: Result<Metrics>)
    requires Chooser(pop)
    ensures r.Ok? <==> trace != [] && cap > 0
    ensures trace == [] ==> r == Err(ZeroDivision)
    ensures trace != [] && cap <= 0 ==> r == Err(EmptySetPop)
    ensures r.Ok? ==> RatesConsistent(r.value) && 0.0 <= r.value.memoryUsage <= 1.0
    ensures r.Ok? ==> Run(trace, cap, pop).Ok?
    ensures r.Ok? ==> Measures(r.value, Run(trace, cap, pop).value.counters, |trace|, |Run(trace, cap, pop).value.cache|, cap)
    ensures r.Ok? ==> r.value.timeComplexity == "O(1)"
  {
    assert cap > 0 ==> Run(trace, cap, pop).Ok? && |Run(trace, cap, pop).value.cache| <= cap by {
      if cap > 0 { RunInvariant(trace, cap, pop); }
    }
    assert trace != [] && cap <= 0 ==> Run(trace, cap, pop) == Err(EmptySetPop) by {
      if trace != [] && cap <= 0 { RunFailsWithoutCapacity(trace, cap, pop); }
    }
    var final :- Run(trace, cap, pop);
    Report(final.counters, |trace|, |final.cache|, cap, "O(1)")
  }
}
