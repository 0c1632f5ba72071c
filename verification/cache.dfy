/** What the five simulations share: the page universe, the per-access
    outcome, the three counters, the exceptions a run can end in, and the
    tail that turns counters into rates (app.py, e.g. lines 19-37). */
module Cache {
  import opened Seqs

  /** Pages are drawn with `random.randint(0, 100)`, both ends included. */
  const MaxPage: int := 100

  predicate IsPage(p: int) {
    0 <= p <= MaxPage
  }

  /** A trace the page generator could have produced. */
  predicate IsTrace(trace: seq<int>) {
    forall i :: 0 <= i < |trace| ==> IsPage(trace[i])
  }

  /** The pages `0 .. n - 1`. */
  function Range(n: nat): (r: set<int>)
    ensures forall p :: p in r <==> 0 <= p < n
    ensures |r| == n
  {
    if n == 0 then {} else Range(n - 1) + {n - 1}
  }

  /** The 101 pages the generator can produce. */
  function Universe(): (u: set<int>)
    ensures forall p :: p in u <==> IsPage(p)
    ensures |u| == MaxPage + 1
  {
    Range(MaxPage + 1)
  }

  lemma TraceInUniverse(trace: seq<int>)
    requires IsTrace(trace)
    ensures Elems(trace) <= Universe()
  {
  }

  /** A resident set that lacks a requested page of the universe leaves
      that page out, so it holds at most `MaxPage` pages: a capacity that
      covers the universe is never full when a miss happens. */
  lemma MissBelowUniverse(resident: set<int>, page: int, cap: int)
    requires resident <= Universe() && IsPage(page) && page !in resident
    requires cap > MaxPage
    ensures |resident| < cap
  {
    SubsetCard(resident + {page}, Universe());
  }

  /** What one access did. */
  datatype Outcome = Hit | Miss | MissWithEviction

  /** The `hit`, `miss` and `evictions` counters of a run. */
  datatype Counters = Counters(hit: nat, miss: nat, evictions: nat)

  const NoAccesses := Counters(0, 0, 0)

  /** One access bumps exactly one of `hit` and `miss`, and `evictions`
      only together with `miss`. */
  function Tally(c: Counters, o: Outcome): (r: Counters)
    ensures r.hit + r.miss == c.hit + c.miss + 1
    ensures r.hit > c.hit <==> o == Hit
    ensures r.evictions > c.evictions <==> o == MissWithEviction
    ensures r.evictions - r.miss <= c.evictions - c.miss
    ensures c.hit <= r.hit && c.miss <= r.miss && c.evictions <= r.evictions
  {
    match o
    case Hit => c.(hit := c.hit + 1)
    case Miss => c.(miss := c.miss + 1)
    case MissWithEviction => c.(miss := c.miss + 1, evictions := c.evictions + 1)
  }

  /** Every one of `n` accesses was counted once, as a hit or as a miss,
      and no eviction happened without a miss. */
  predicate Accounted(c: Counters, n: nat) {
    c.hit + c.miss == n && c.evictions <= c.miss
  }

  function Min(a: int, b: int): int {
    if a < b then a else b
  }

  function Max(a: int, b: int): int {
    if a < b then b else a
  }

  /** A cache of capacity `cap` that starts empty, grows by one page per
      miss until full and then evicts one page per miss holds
      `min(miss, cap)` pages and has evicted `max(0, miss - cap)` times. */
  predicate SizeLaw(size: nat, c: Counters, cap: int) {
    size == Min(c.miss, cap) && c.evictions == Max(0, c.miss - cap)
  }

  /** How one access may change the number of resident pages: a hit leaves
      it alone, a plain miss happens below capacity and adds a page, an
      eviction happens at capacity and trades one page for another. */
  predicate Disciplined(size: nat, size': nat, o: Outcome, cap: int) {
    match o
    case Hit => size' == size
    case Miss => size < cap && size' == size + 1
    case MissWithEviction => cap <= size && size' == size
  }

  lemma SizeLawStep(size: nat, size': nat, c: Counters, o: Outcome, cap: int)
    requires cap > 0 && SizeLaw(size, c, cap) && Disciplined(size, size', o, cap)
    ensures SizeLaw(size', Tally(c, o), cap)
  {
  }

  /** The exceptions a simulation can raise instead of returning. */
  datatype Error =
    | NegativeMaxlen   // ValueError: a deque built with a negative maxlen
    | ZeroDivision     // ZeroDivisionError: file_size or cache_size is 0
    | MinOfEmpty       // ValueError: min() over an empty dict
    | EmptySetPop      // KeyError: pop() on an empty set
    | EmptyDequePop    // IndexError: pop() or popleft() on an empty deque
    | MissingKey       // KeyError: set.remove() of an absent page

  datatype Result<+T> = Ok(value: T) | Err(error: Error) {
    predicate IsFailure() {
      Err?
    }

    function PropagateFailure<U>(): Result<U>
      requires Err?
    {
      Err(error)
    }

    function Extract(): T
      requires Ok?
    {
      value
    }
  }

  /** The tuple every simulation returns. Python computes floats; here the
      quotients are exact reals. */
  datatype Metrics = Metrics(
    hitRate: real,
    missRate: real,
    evictionRate: real,
    latencyReduction: real,
    memoryUsage: real,
    cacheUtilization: real,
    bandwidthSaving: real,
    timeComplexity: string)

  /** The rates of a run that accounted for every access lie in [0, 1],
      hit and miss rates add up to one, and evictions never outpace misses. */
  predicate RatesConsistent(m: Metrics) {
    && 0.0 <= m.hitRate <= 1.0
    && 0.0 <= m.missRate <= 1.0
    && m.hitRate + m.missRate == 1.0
    && 0.0 <= m.evictionRate <= m.missRate
  }

  /** Python's true division `a / n` of two integers, as an exact real. */
  function Ratio(a: int, n: int): (r: real)
    requires n != 0
    ensures r * n as real == a as real
  {
    a as real / n as real
  }

  lemma RatioSum(a: nat, b: nat, n: nat)
    requires n > 0 && a + b == n
    ensures Ratio(a, n) + Ratio(b, n) == 1.0
  {
    var m := n as real;
    assert a as real / m + b as real / m == (a as real + b as real) / m;
    assert a as real + b as real == m;
  }

  lemma RatioMonotone(a: nat, b: nat, n: nat)
    requires n > 0 && a <= b
    ensures 0.0 <= Ratio(a, n) <= Ratio(b, n)
  {
  }

  /** The three rates of a run that counted every one of `n` accesses. */
  lemma AccountedRates(c: Counters, n: nat)
    requires n > 0 && Accounted(c, n)
    ensures 0.0 <= Ratio(c.hit, n) <= 1.0 && 0.0 <= Ratio(c.miss, n) <= 1.0
    ensures Ratio(c.hit, n) + Ratio(c.miss, n) == 1.0
    ensures 0.0 <= Ratio(c.evictions, n) <= Ratio(c.miss, n)
  {
    RatioSum(c.hit, c.miss, n);
    RatioMonotone(c.evictions, c.miss, n);
    RatioMonotone(c.hit, n, n);
    RatioMonotone(c.miss, n, n);
  }

  /** `m` is what app.py:31-38 returns for counters `c` after `n` accesses
      with `resident` pages left in a cache of capacity `cap`: each rate is
      its counter over `file_size`, latency reduction and bandwidth saving
      are one and two hundredths of the hit rate, and memory usage and
      utilisation are the resident count over `cache_size`. */
  predicate Measures(m: Metrics, c: Counters, n: nat, resident: nat, cap: int)
    requires n > 0 && cap != 0
  {
    && m.hitRate == Ratio(c.hit, n)
    && m.missRate == Ratio(c.miss, n)
    && m.evictionRate == Ratio(c.evictions, n)
    && m.latencyReduction == m.hitRate * 0.01
    && m.memoryUsage == Ratio(resident, cap)
    && m.cacheUtilization == m.memoryUsage
    && m.bandwidthSaving == m.hitRate * 0.02
  }

  /** What the measured numbers promise: each rate times its divisor gives
      its counter back, the rates of a fully counted run are consistent,
      and a cache within capacity uses between none and all of it. */
  lemma MeasuresMeaning(m: Metrics, c: Counters, n: nat, resident: nat, cap: int)
    requires n > 0 && cap != 0 && Measures(m, c, n, resident, cap)
    ensures m.hitRate * n as real == c.hit as real
    ensures m.missRate * n as real == c.miss as real
    ensures m.evictionRate * n as real == c.evictions as real
    ensures m.memoryUsage * cap as real == resident as real
    ensures Accounted(c, n) ==> RatesConsistent(m)
    ensures 0 < cap && resident <= cap ==> 0.0 <= m.memoryUsage <= 1.0
  {
    if Accounted(c, n) {
      AccountedRates(c, n);
    }
    if 0 < cap && resident <= cap {
      RatioMonotone(resident, cap, cap);
    }
  }

  /** The shared tail of every simulation: divide the counters by
      `file_size` and the resident count by `cache_size`. */
  function Report(c: Counters, fileSize: nat, resident: nat, cap: int, complexity: string): (r: Result<Metrics>)
    ensures r.Ok? <==> fileSize > 0 && cap != 0
    ensures r.Err? ==> r.error == ZeroDivision
    ensures r.Ok? ==> Measures(r.value, c, fileSize, resident, cap)
    ensures r.Ok? ==> r.value.hitRate * fileSize as real == c.hit as real
    ensures r.Ok? ==> r.value.missRate * fileSize as real == c.miss as real
    ensures r.Ok? ==> r.value.evictionRate * fileSize as real == c.evictions as real
    ensures r.Ok? ==> r.value.memoryUsage * cap as real == resident as real
    ensures r.Ok? ==> r.value.cacheUtilization == r.value.memoryUsage
    ensures r.Ok? ==> r.value.latencyReduction == r.value.hitRate * 0.01
    ensures r.Ok? ==> r.value.bandwidthSaving == r.value.hitRate * 0.02
    ensures r.Ok? && Accounted(c, fileSize) ==> RatesConsistent(r.value)
    ensures r.Ok? && 0 < cap && resident <= cap ==> 0.0 <= r.value.memoryUsage <= 1.0
    ensures r.Ok? ==> r.value.timeComplexity == complexity
  {
    if fileSize == 0 || cap == 0 then Err(ZeroDivision)
    else
      var hitRate := Ratio(c.hit, fileSize);
      var usage := Ratio(resident, cap);
      var m := Metrics(hitRate, Ratio(c.miss, fileSize), Ratio(c.evictions, fileSize),
                       hitRate * 0.01, usage, usage, hitRate * 0.02, complexity);
      MeasuresMeaning(m, c, fileSize, resident, cap);
      Ok(m)
  }
}
