/** `lru_cache_simulation` (app.py:17-38): a `deque(maxlen=cache_size)` whose
    left end is the least recently used page. */
module Lru {
  import opened Seqs
  import opened Deque
  import opened Cache

  /** The deque after one access, and what the access was. */
  datatype Next = Next(cache: seq<int>, outcome: Outcome)

  /** One loop iteration (app.py:22-30). A hit moves the page to the right
      end; a miss appends it, and when the deque is full `maxlen` pushes
      the least recently used page out of the left end. */
  function Step(cache: seq<int>, page: int, cap: nat): (r: Next)
    ensures r.outcome == Hit <==> page in cache
    ensures r.outcome == MissWithEviction <==> page !in cache && |cache| >= cap
    ensures cap > 0 ==> r.cache != [] && r.cache[|r.cache| - 1] == page
    ensures |cache| <= cap ==> |r.cache| <= cap && Disciplined(|cache|, |r.cache|, r.outcome, cap)
  {
    if page in cache then
      Next(Append(Remove(cache, page), page, cap), Hit)
    else
      Next(Append(cache, page, cap), if |cache| >= cap then MissWithEviction else Miss)
  }

  /** The deque is duplicate-free and within capacity. */
  predicate Inv(cache: seq<int>, cap: nat) {
    NoDup(cache) && |cache| <= cap
  }

  /** A step keeps the deque duplicate-free and within capacity, and adds no
      page but the requested one. */
  lemma StepKeepsInv(cache: seq<int>, page: int, cap: nat)
    requires Inv(cache, cap)
    ensures Inv(Step(cache, page, cap).cache, cap)
    ensures Elems(Step(cache, page, cap).cache) <= Elems(cache) + {page}
  {
    if page in cache {
      RemoveUnique(cache, page);
    }
  }

  /** A hit keeps the relative order of every other page and makes the
      requested page the most recently used. */
  lemma HitRefreshes(cache: seq<int>, page: int, cap: nat)
    requires Inv(cache, cap) && page in cache
    ensures Step(cache, page, cap).cache == Without(cache, page) + [page]
  {
    RemoveUnique(cache, page);
  }

  /** A miss below capacity only appends; a miss at capacity drops exactly
      the least recently used page (the left end) before appending. */
  lemma MissAppends(cache: seq<int>, page: int, cap: nat)
    requires |cache| <= cap && page !in cache
    ensures |cache| < cap ==> Step(cache, page, cap).cache == cache + [page]
    ensures 0 < cap == |cache| ==> Step(cache, page, cap).cache == cache[1..] + [page]
  {
  }

  /** The deque and the counters after a prefix of the trace. */
  datatype Snapshot = Snapshot(cache: seq<int>, counters: Counters)

  /** The loop of app.py:20-30 over `trace`, folded from an empty deque. */
  function Run(trace: seq<int>, cap: nat): (r: Snapshot)
    ensures r.counters.hit + r.counters.miss == |trace|
    ensures r.counters.evictions <= r.counters.miss
    decreases |trace|
  {
    if trace == [] then Snapshot([], NoAccesses)
    else
      var prior := Run(trace[..|trace| - 1], cap);
      var next := Step(prior.cache, trace[|trace| - 1], cap);
      Snapshot(next.cache, Tally(prior.counters, next.outcome))
  }

  /** After every prefix of the trace the deque is duplicate-free, within
      capacity and holds only pages that were requested. */
  lemma {:induction false} RunInvariant(trace: seq<int>, cap: nat)
    ensures Inv(Run(trace, cap).cache, cap)
    ensures Elems(Run(trace, cap).cache) <= Elems(trace)
    decreases |trace|
  {
    if trace != [] {
      var prefix := trace[..|trace| - 1];
      RunInvariant(prefix, cap);
      PrefixElems(trace, |trace| - 1);
      var prior := Run(prefix, cap);
      var page := trace[|trace| - 1];
      assert page in Elems(trace);
      StepKeepsInv(prior.cache, page, cap);
      assert Run(trace, cap).cache == Step(prior.cache, page, cap).cache;
    }
  }

  /** After every access the requested page is the most recently used one. */
  lemma LatestIsLast(trace: seq<int>, cap: nat)
    requires cap > 0 && trace != []
    ensures Run(trace, cap).cache != []
    ensures Run(trace, cap).cache[|Run(trace, cap).cache| - 1] == trace[|trace| - 1]
  {
  }

  /** The deque holds `min(miss, cap)` pages and `max(0, miss - cap)` pages
      have been evicted. */
  lemma {:induction false} RunSizeLaw(trace: seq<int>, cap: nat)
    requires cap > 0
    ensures SizeLaw(|Run(trace, cap).cache|, Run(trace, cap).counters, cap)
    decreases |trace|
  {
    if trace != [] {
      var prefix := trace[..|trace| - 1];
      RunSizeLaw(prefix, cap);
      RunInvariant(prefix, cap);
      var prior := Run(prefix, cap);
      var next := Step(prior.cache, trace[|trace| - 1], cap);
      assert Run(trace, cap) == Snapshot(next.cache, Tally(prior.counters, next.outcome));
      SizeLawStep(|prior.cache|, |next.cache|, prior.counters, next.outcome, cap);
    }
  }

  /** With a capacity covering all 101 pages, no page is ever evicted. */
  lemma {:induction false} NoEvictionsWhenUniverseFits(trace: seq<int>, cap: nat)
    requires IsTrace(trace) && cap > MaxPage
    ensures Run(trace, cap).counters.evictions == 0
    decreases |trace|
  {
    if trace != [] {
      var prefix := trace[..|trace| - 1];
      NoEvictionsWhenUniverseFits(prefix, cap);
      RunInvariant(prefix, cap);
      var prior := Run(prefix, cap);
      var page := trace[|trace| - 1];
      if page !in prior.cache {
        PrefixElems(trace, |trace| - 1);
        NoDupCard(prior.cache);
        MissBelowUniverse(Elems(prior.cache), page, cap);
      }
    }
  }

  /** `lru_cache_simulation(len(trace), cap)` with `trace` as the drawn pages. */
  function Simulate(trace: seq<int>, cap: int): (r: Result<Metrics>)
    ensures r.Ok? <==> |trace| > 0 && cap > 0
    ensures cap < 0 ==> r == Err(NegativeMaxlen)
    ensures cap >= 0 && (trace == [] || cap == 0) ==> r == Err(ZeroDivision)
    ensures r.Ok? ==> RatesConsistent(r.value) && 0.0 <= r.value.memoryUsage <= 1.0
    ensures r.Ok? ==> Measures(r.value, Run(trace, cap).counters, |trace|, |Run(trace, cap).cache|, cap)
    ensures r.Ok? ==> r.value.timeComplexity == "O(1)"
  {
    if cap < 0 then Err(NegativeMaxlen)
    else
      var final := Run(trace, cap);
      RunInvariant(trace, cap);
      assert cap > 0 ==> SizeLaw(|final.cache|, final.counters, cap) by {
        if cap > 0 { RunSizeLaw(trace, cap); }
      }
      Report(final.counters, |trace|, |final.cache|, cap, "O(1)")
  }
}
