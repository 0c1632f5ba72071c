/** `arc_cache_simulation` (app.py:64-100): four deques `t1`, `t2`, `b1`,
    `b2`, each created with `maxlen=cache_size // 2`. The code departs from
    canonical ARC: nothing is ever appended to the ghost lists `b1` and
    `b2`, a hit in `t2` leaves every list alone, and every miss that is not
    a ghost hit counts as an eviction. The model keeps the code as written
    and proves what those departures imply. */
module Arc {
  import opened Seqs
  import opened Deque
  import opened Cache

  datatype State = State(t1: seq<int>, t2: seq<int>, b1: seq<int>, b2: seq<int>)

  const Empty := State([], [], [], [])

  /** The lists after one access, and what the access was. */
  datatype Next = Next(state: State, outcome: Outcome)

  /** app.py:79-83: when `t1` and `b1` together fill half the capacity, pop
      the right end of `b1` if `t1` is short of half, else pop the left end
      of `t1` (which fails on an empty `t1`). */
  function MakeRoomInT1(s: State, half: nat): (r: Result<State>)
    ensures r.Ok? ==> r.value.t2 == s.t2 && r.value.b2 == s.b2
    ensures r.Ok? ==> |r.value.b1| <= |s.b1| && r.value.b1 == s.b1[..|r.value.b1|]
    ensures r.Err? <==> |s.t1| + |s.b1| == half && s.t1 == [] && half == 0
  {
    if |s.t1| + |s.b1| == half then
      if |s.t1| < half then Ok(s.(b1 := s.b1[..|s.b1| - 1]))
      else if s.t1 == [] then Err(EmptyDequePop)
      else Ok(s.(t1 := s.t1[1..]))
    else Ok(s)
  }

  /** app.py:84-89: when `t1` and `b1` stay below half the capacity and the
      four lists together reach the capacity, pop the right end of `b2` on
      an exact fit, else the left end of `t2`. */
  function MakeRoomInT2(s: State, half: nat, cap: nat): (r: Result<State>)
    ensures r.Ok? ==> r.value.t1 == s.t1 && r.value.b1 == s.b1
    ensures r.Ok? ==> |r.value.b2| <= |s.b2| && r.value.b2 == s.b2[..|r.value.b2|]
  {
    var total := |s.t1| + |s.b1| + |s.t2| + |s.b2|;
    if |s.t1| + |s.b1| < half && total >= cap then
      if total == cap then
        if s.b2 == [] then Err(EmptyDequePop) else Ok(s.(b2 := s.b2[..|s.b2| - 1]))
      else if s.t2 == [] then Err(EmptyDequePop)
      else Ok(s.(t2 := s.t2[1..]))
    else Ok(s)
  }

  /** One loop iteration (app.py:70-92). */
  function Step(s: State, page: int, cap: nat): (r: Result<Next>)
    ensures r.Ok? ==> (r.value.outcome == Hit <==> page in s.t1 || page in s.t2)
    // a hit in t2 changes no state
    ensures page !in s.t1 && page in s.t2 ==> r == Ok(Next(s, Hit))
    // the ghost lists never grow: nothing is ever appended to them
    ensures r.Ok? ==> |r.value.state.b1| <= |s.b1| && |r.value.state.b2| <= |s.b2|
  {
    var half := cap / 2;
    if page in s.t1 then
      Ok(Next(s.(t1 := Remove(s.t1, page), t2 := Append(s.t2, page, half)), Hit))
    else if page in s.t2 then
      Ok(Next(s, Hit))
    else if page in s.b1 || page in s.b2 then
      Ok(Next(s, Miss))
    else
      var roomy :- MakeRoomInT1(s, half);
      var spare :- MakeRoomInT2(roomy, half, cap);
      Ok(Next(spare.(t1 := Append(spare.t1, page, half)), MissWithEviction))
  }

  /** The state every run with `cache_size >= 2` stays in: empty ghost
      lists, and two disjoint duplicate-free resident lists of at most half
      the capacity each. */
  predicate Inv(s: State, cap: nat) {
    && cap >= 2
    && s.b1 == [] && s.b2 == []
    && |s.t1| <= cap / 2 && |s.t2| <= cap / 2
    && NoDup(s.t1) && NoDup(s.t2)
    && Elems(s.t1) !! Elems(s.t2)
  }

  /** Under the invariant, lines 79-83 pop the oldest page of `t1` exactly
      when `t1` is full, and lines 84-89 then remove nothing: `t1` is below
      half the capacity and the ghost lists are empty, so the four lists
      together stay below the capacity. */
  lemma MakeRoomRemovesOnlyFromT1(s: State, cap: nat)
    requires Inv(s, cap)
    ensures MakeRoomInT1(s, cap / 2) == Ok(if |s.t1| == cap / 2 then s.(t1 := s.t1[1..]) else s)
    ensures MakeRoomInT2(MakeRoomInT1(s, cap / 2).value, cap / 2, cap) == MakeRoomInT1(s, cap / 2)
  {
  }

  /** Under the invariant no page is found in a ghost list, so the branch
      of app.py:76-77 is dead and every access is a hit or a counted
      eviction. */
  lemma GhostBranchUnreachable(s: State, page: int, cap: nat)
    requires Inv(s, cap)
    ensures Step(s, page, cap).Ok?
    ensures Step(s, page, cap).value.outcome != Miss
  {
    if page !in s.t1 && page !in s.t2 {
      MakeRoomRemovesOnlyFromT1(s, cap);
    }
  }

  /** A hit in `t1` moves the page to the right end of `t2`; when `t2` is
      full its `maxlen` drops its oldest page, which then leaves the cache
      without entering `b2`. */
  lemma HitInT1Promotes(s: State, page: int, cap: nat)
    requires Inv(s, cap) && page in s.t1
    ensures Step(s, page, cap).Ok?
    ensures Step(s, page, cap).value.state.t1 == Without(s.t1, page)
    ensures |s.t2| < cap / 2 ==> Step(s, page, cap).value.state.t2 == s.t2 + [page]
    ensures |s.t2| == cap / 2 ==> Step(s, page, cap).value.state.t2 == s.t2[1..] + [page]
    ensures Step(s, page, cap).value.state.b2 == []
  {
    RemoveUnique(s.t1, page);
  }

  /** A true miss appends the page to `t1` after popping `t1`'s oldest page
      if `t1` was full, leaves `t2` alone and counts an eviction, whether or
      not a page was removed. */
  lemma TrueMissEntersT1(s: State, page: int, cap: nat)
    requires Inv(s, cap) && page !in s.t1 && page !in s.t2
    ensures Step(s, page, cap) ==
      Ok(Next(s.(t1 := (if |s.t1| == cap / 2 then s.t1[1..] else s.t1) + [page]), MissWithEviction))
  {
    MakeRoomRemovesOnlyFromT1(s, cap);
  }

  /** Promotion from `t1` to `t2` keeps the two lists disjoint, duplicate-free
      and within half the capacity. */
  lemma HitInT1KeepsInv(s: State, page: int, cap: nat)
    requires Inv(s, cap) && page in s.t1
    ensures Inv(Step(s, page, cap).value.state, cap)
  {
    HitInT1Promotes(s, page, cap);
    RemoveUnique(s.t1, page);
    var t1 := Remove(s.t1, page);
    assert page !in s.t2;
    var t2 := Append(s.t2, page, cap / 2);
    assert Elems(t1) <= Elems(s.t1) - {page};
    assert Elems(t2) <= Elems(s.t2) + {page};
  }

  /** Entering a fresh page into `t1` keeps the invariant. */
  lemma TrueMissKeepsInv(s: State, page: int, cap: nat)
    requires Inv(s, cap) && page !in s.t1 && page !in s.t2
    ensures Inv(Step(s, page, cap).value.state, cap)
  {
    TrueMissEntersT1(s, page, cap);
    var kept := if |s.t1| == cap / 2 then s.t1[1..] else s.t1;
    if |s.t1| == cap / 2 {
      DropFirst(s.t1);
    }
    assert NoDup(kept) && Elems(kept) <= Elems(s.t1) && |kept| < cap / 2;
    AppendFresh(kept, page);
  }

  /** Every step from a state satisfying the invariant succeeds and keeps it. */
  lemma StepKeepsInv(s: State, page: int, cap: nat)
    requires Inv(s, cap)
    ensures Step(s, page, cap).Ok?
    ensures Inv(Step(s, page, cap).value.state, cap)
  {
    GhostBranchUnreachable(s, page, cap);
    if page in s.t1 {
      HitInT1KeepsInv(s, page, cap);
    } else if page !in s.t2 {
      TrueMissKeepsInv(s, page, cap);
    }
  }

  /** The lists and the counters after a prefix of the trace. */
  datatype Snapshot = Snapshot(state: State, counters: Counters)

  /** The loop of app.py:68-92 over `trace`, from four empty deques. */
  function Run(trace: seq<int>, cap: nat): (r: Result<Snapshot>)
    ensures r.Ok? ==> r.value.counters.hit + r.value.counters.miss == |trace|
    ensures r.Ok? ==> r.value.counters.evictions <= r.value.counters.miss
    decreases |trace|
  {
    if trace == [] then Ok(Snapshot(Empty, NoAccesses))
    else
      var prior :- Run(trace[..|trace| - 1], cap);
      var next :- Step(prior.state, trace[|trace| - 1], cap);
      Ok(Snapshot(next.state, Tally(prior.counters, next.outcome)))
  }

  /** The ghost lists start empty and never grow, so they stay empty. */
  lemma {:induction false} GhostListsStayEmpty(trace: seq<int>, cap: nat)
    requires Run(trace, cap).Ok?
    ensures Run(trace, cap).value.state.b1 == [] && Run(trace, cap).value.state.b2 == []
    decreases |trace|
  {
    if trace != [] {
      GhostListsStayEmpty(trace[..|trace| - 1], cap);
    }
  }

  /** With `cache_size >= 2` every prefix runs to completion, keeps the
      invariant, and counts an eviction for every miss. */
  lemma {:induction false} RunInvariant(trace: seq<int>, cap: nat)
    requires cap >= 2
    ensures Run(trace, cap).Ok?
    ensures Inv(Run(trace, cap).value.state, cap)
    ensures Run(trace, cap).value.counters.evictions == Run(trace, cap).value.counters.miss
    decreases |trace|
  {
    if trace != [] {
      var prefix := trace[..|trace| - 1];
      RunInvariant(prefix, cap);
      var prior := Run(prefix, cap).value;
      StepKeepsInv(prior.state, trace[|trace| - 1], cap);
      GhostBranchUnreachable(prior.state, trace[|trace| - 1], cap);
    }
  }

  /** With `cache_size` 0 or 1 the deques have `maxlen` 0, and the first
      access pops the left end of the empty `t1`. */
  lemma {:induction false} RunFailsWithoutRoom(trace: seq<int>, cap: nat)
    requires cap < 2 && trace != []
    ensures Run(trace, cap) == Err(EmptyDequePop)
    decreases |trace|
  {
    if |trace| > 1 {
      RunFailsWithoutRoom(trace[..|trace| - 1], cap);
    }
  }

  /** The pages the cache holds: `len(t1) + len(t2)` (app.py:96). */
  function Resident(s: State): nat {
    |s.t1| + |s.t2|
  }

  /** How a run on `cache_size` ends: with room for both halves it
      completes within capacity and counts every miss as an eviction;
      otherwise any access fails on `popleft`. */
  lemma RunEnds(trace: seq<int>, cap: nat)
    ensures cap >= 2 ==> Run(trace, cap).Ok? && Resident(Run(trace, cap).value.state) <= cap
    ensures cap >= 2 ==> Run(trace, cap).value.counters.evictions == Run(trace, cap).value.counters.miss
    ensures cap < 2 && trace != [] ==> Run(trace, cap) == Err(EmptyDequePop)
  {
    if cap >= 2 {
      RunInvariant(trace, cap);
    } else if trace != [] {
      RunFailsWithoutRoom(trace, cap);
    }
  }

  /** `arc_cache_simulation(len(trace), cap)` with `trace` as the drawn pages. */
  function Simulate(trace: seq<int>, cap: int): (r: Result<Metrics>)
    ensures r.Ok? <==> trace != [] && cap >= 2
    ensures cap < 0 ==> r == Err(NegativeMaxlen)
    ensures 0 <= cap && trace == [] ==> r == Err(ZeroDivision)
    ensures 0 <= cap < 2 && trace != [] ==> r == Err(EmptyDequePop)
    ensures r.Ok? ==> RatesConsistent(r.value) && 0.0 <= r.value.memoryUsage <= 1.0
    // every miss is reported as an eviction
    ensures r.Ok? ==> r.value.evictionRate == r.value.missRate
    ensures r.Ok? ==> Run(trace, cap).Ok?
    ensures r.Ok? ==> Measures(r.value, Run(trace, cap).value.counters, |trace|, Resident(Run(trace, cap).value.state), cap)
    ensures r.Ok? ==> r.value.timeComplexity == "O(1)"
  {
    if cap < 0 then Err(NegativeMaxlen)
    else
      RunEnds(trace, cap);
      var run := Run(trace, cap);
      if run.Err? then Err(run.error)
      else Report(run.value.counters, |trace|, Resident(run.value.state), cap, "O(1)")
  }

  /** The first access of a run with capacity 4 evicts nothing, yet the
      simulation counts an eviction. */
  lemma PhantomEviction()
    ensures Run([7], 4) == Ok(Snapshot(State([7], [], [], []), Counters(0, 1, 1)))
  {
    assert [7][..0] == [];
  }
}
