# Cache replacement simulations, modelled in Dafny

The system replays a trace of page requests through one of five cache
replacement policies: LRU, LFU, a simplified ARC, an approximate W-TinyLFU
and random eviction. Each replay counts hits, misses and evictions, then
reports rates. The simulations live in `app.py:17-149`.

In this model each policy is a pure `Step` over an explicit, immutable state.
`Run` folds that step over the trace, from the back:
`Run(trace) = Step(Run(prefix), last)`. A fact "after every access" is
therefore a lemma about every prefix. Each `Simulate` adds the shared tail
that turns counters into rates (`Cache.Report`).

Where the Python code raises an exception, the model returns `Err`.
`Result` is the error datatype, and the cases are:

- **Empty trace:** `ZeroDivision`.
- **Negative capacity for the deque-based policies:** `NegativeMaxlen`.
- **LRU with capacity 0:** `ZeroDivision` in the tail.
- **LFU and W-TinyLFU with capacity at most 0:** `min` over an empty dict.
- **Random with capacity at most 0:** `pop` from an empty set.
- **ARC with capacity 0 or 1:** `popleft` on an empty `t1`.

Modules, one per file:

- `seqs.dfy` (`Seqs`): duplicate-freedom, element sets, removal of a value.
- `deque.dfy` (`Deque`): `append` on a deque with `maxlen`, and `remove`.
- `dict.dfy` (`Dict`):
  - An insertion-ordered dict of page → count.
  - `d[k] = v`, `del d[k]`.
  - `min(d, key=d.get)`: the first minimum in insertion order, which is the code's real tie-break.
- `cache.dfy` (`Cache`): shared pieces.
  - The page universe `0..100`.
  - Outcomes, counters and the size law.
  - Errors, metrics and the rate tail.
- `lru.dfy`, `lfu.dfy`, `arc.dfy`, `wtinylfu.dfy`, `randomcache.dfy`: one module per policy.

Behaviour of the code as written that the model proves rather than corrects:

- **ARC:**
  - Nothing is ever appended to the ghost lists `b1` and `b2`, so they stay empty.
  - The ghost branch is dead.
  - The `t2` make-room block never removes anything.
  - A hit in `t2` changes nothing.
  - Every true miss counts as an eviction, even when nothing left the cache (`Arc.PhantomEviction`).

  Canonical ARC records evicted pages in `b1`/`b2` and refreshes the position of a page hit in `t2`. This code does neither, and the model follows the code.
- **W-TinyLFU:** it is LFU kept in two structures. Its step-by-step behaviour equals LFU's, and so does its result apart from the complexity label.
- **LFU tie-break:** the code breaks ties by taking the first minimum in insertion order, not, for instance, the lowest page id. The model does the same.

## Model

| member | source | states |
|---|---|---|
| Deque.Append | app.py:18-29 | `append` on a deque with `maxlen`: the item becomes the right end; once the deque is full, the leftmost surplus is dropped; a `maxlen` of 0 keeps it empty; length, contents and duplicate-freedom follow from that |
| Deque.Remove | app.py:23 | `remove` of a present item shortens the deque by one and takes out exactly one copy of that item (multiset difference) |
| Deque.RemoveUnique | app.py:23 | in a duplicate-free deque, `remove` keeps every other item in its original order and leaves the deque duplicate-free without the item |
| Dict.Put | app.py:46-53 | `d[k] = v` overwrites an existing entry in place (keys and their order unchanged) or appends a new key at the end; every other key keeps its value; dicts stay well formed |
| Dict.Delete | app.py:52 | `del d[k]` removes exactly that key, keeps every other key with its value, and keeps the dict well formed |
| Dict.Get | app.py:46-51 | `d[k]` on a present key, as read by `d[page] += 1` and by `key=d.get` in `min`, gives a value stored against that key |
| Dict.GetOrZero | app.py:109 | reading `frequency[page]` on a `defaultdict(int)` gives 0 for a missing key, and otherwise a value stored against that key |
| Dict.FirstMin | app.py:51 | `min(d, key=d.get)` returns an entry with the smallest value such that no earlier entry in insertion order has a value as small |
| Cache.Tally | app.py:25-30 | each access bumps exactly one of `hit` and `miss`, and `evictions` only together with `miss` |
| Cache.SizeLawStep | app.py:22-30 | a step that behaves as a hit, a fill or a one-for-one eviction preserves `size == min(miss, cap)` and `evictions == max(0, miss - cap)` |
| Cache.MissBelowUniverse | app.py:21 | with pages drawn from 0..100, a resident set that lacks the requested page is below any capacity of at least 101 |
| Cache.AccountedRates | app.py:31-33 | when every access was counted once, the hit and miss rates lie in [0,1] and sum to 1, and the eviction rate is at most the miss rate |
| Cache.MeasuresMeaning | app.py:31-37 | numbers computed as app.py:31-37 computes them give each counter back when multiplied by `file_size`, are consistent rates for a fully counted run, and give a memory usage in [0,1] for a cache within capacity |
| Cache.Report | app.py:31-38 | the tail raises `ZeroDivisionError` exactly when `file_size` or `cache_size` is 0; otherwise it returns the `Cache.Measures` numbers of its counters: each rate times its divisor gives its counter back, utilisation equals memory usage, latency reduction and bandwidth saving are one and two hundredths of the hit rate, rates are consistent for a fully counted run, and memory usage is in [0,1] for a cache within capacity |
| Lru.Step | app.py:22-30 | an access is a hit iff the page is resident, an eviction iff it is a miss on a full deque; afterwards the page is the most recently used; size changes follow the size law |
| Lru.StepKeepsInv | app.py:22-29 | a step keeps the deque duplicate-free and within capacity, and adds no page but the requested one |
| Lru.HitRefreshes | app.py:22-24 | a hit keeps the relative order of every other page and moves the requested page to the most recently used end |
| Lru.MissAppends | app.py:27-29 | a miss below capacity only appends; a miss at capacity drops exactly the least recently used page |
| Lru.Run | app.py:20-30 | after any trace, `hit + miss == file_size` and `evictions <= miss` |
| Lru.RunInvariant | app.py:18-30 | after every prefix the deque is duplicate-free, within capacity and holds only requested pages |
| Lru.LatestIsLast | app.py:22-29 | after every access with a positive capacity, the requested page is the right end of the deque |
| Lru.RunSizeLaw | app.py:21-30 | the deque holds `min(miss, cap)` pages and `max(0, miss - cap)` evictions were counted |
| Lru.NoEvictionsWhenUniverseFits | app.py:21-28 | with `cache_size >= 101` no eviction is ever counted |
| Lru.Simulate | app.py:17-38 | the simulation returns iff the trace is nonempty and the capacity positive; a negative capacity is a `ValueError`, an empty trace or capacity 0 a `ZeroDivisionError`; returned rates are consistent, memory usage is in [0,1], and the label is `"O(1)"`; the returned numbers are exactly the final run's hit, miss and eviction counts over `file_size`, its resident count over `cache_size`, and one and two hundredths of the hit rate (`Cache.Measures`) |
| Lfu.Step | app.py:45-54 | an access fails iff it needs the minimum of an empty dict (capacity at most 0); it is a hit iff the page is a key, an eviction iff it is a miss on a full dict; the page is a key afterwards |
| Lfu.HitIncrements | app.py:45-46 | a hit increments only the requested page's count; keys and their order are unchanged |
| Lfu.MissAppends | app.py:49-53 | a miss below capacity appends the page with count 1 |
| Lfu.EvictionShape | app.py:49-53 | an eviction cuts out the entry `min` selects and appends the page with count 1 |
| Lfu.EvictsFirstMinimum | app.py:49-53 | an eviction removes an entry with the minimal count, the first in insertion order among ties, and appends the page with count 1 |
| Lfu.HitKeepsInv | app.py:45-47 | after a hit every count is still at least 1 and the keys are unchanged |
| Lfu.EvictionKeepsInv | app.py:49-54 | an eviction keeps the dict well formed and positive, keeps its size, and trades one key for the page |
| Lfu.StepKeepsInv | app.py:45-54 | with a positive capacity a step succeeds, keeps the dict well formed, within capacity and with counts at least 1, adds only the requested page, and changes size as the size law demands |
| Lfu.Run | app.py:43-54 | after any successful run, `hit + miss == file_size` and `evictions <= miss` |
| Lfu.RunFailsWithoutCapacity | app.py:49-51 | with `cache_size <= 0` the first access raises `ValueError` from `min` of an empty dict |
| Lfu.RunInvariant | app.py:41-54 | with a positive capacity every prefix completes, keeps the invariant, holds only requested pages and obeys the size law |
| Lfu.NoEvictionsWhenUniverseFits | app.py:44-50 | with `cache_size >= 101` no eviction is ever counted |
| Lfu.Simulate | app.py:40-62 | returns iff the trace is nonempty and the capacity positive; the error cases are `ZeroDivisionError` and the `min` `ValueError`; rates are consistent; the label is `"O(log n)"`; the returned numbers are exactly the final run's hit, miss and eviction counts over `file_size`, its resident count over `cache_size`, and one and two hundredths of the hit rate (`Cache.Measures`) |
| WTinyLfu.Step | app.py:108-119 | a hit iff the page is in the set; afterwards the page is both in the set and a key of the count table |
| WTinyLfu.HitMatchesLfu | app.py:108-110 | from mirrored states, a hit behaves exactly as an LFU hit |
| WTinyLfu.MissMatchesLfu | app.py:112-119 | from mirrored states, a miss below capacity behaves exactly as in LFU |
| WTinyLfu.EvictionMatchesLfu | app.py:112-119 | from mirrored states, a miss at capacity fails alike or evicts the same page as LFU, and the set again equals the table's keys |
| WTinyLfu.StepMatchesLfu | app.py:108-119 | every step from mirrored states gives the same outcome (or error) as LFU and mirrored successor states |
| WTinyLfu.Run | app.py:106-119 | after any successful run, `hit + miss == file_size` and `evictions <= miss` |
| WTinyLfu.RunMatchesLfu | app.py:103-119 | on the same trace and capacity, W-TinyLFU and LFU fail alike or have the same counters and the same ordered count table, with the set equal to its keys |
| WTinyLfu.KeysMatchCache | app.py:103-118 | the key set of `frequency` always equals `cache` |
| WTinyLfu.RunSizeLaw | app.py:108-119 | with a positive capacity the set holds `min(miss, cap)` pages, `max(0, miss - cap)` evictions were counted, and none with `cache_size >= 101` |
| WTinyLfu.Simulate | app.py:102-127 | returns iff the trace is nonempty and the capacity positive; rates are consistent; the label is `"O(1)"`; the returned numbers are exactly the final run's hit, miss and eviction counts over `file_size`, its resident count over `cache_size`, and one and two hundredths of the hit rate (`Cache.Measures`), with `len(cache)` as the resident count |
| WTinyLfu.SameMetricsAsLfu | app.py:120-127 | the returned tuple equals LFU's except for the complexity label, and the errors coincide |
| Arc.MakeRoomInT1 | app.py:79-83 | this block fails only when `t1` is empty and half the capacity is 0; it never touches `t2` or `b2` and never grows `b1` |
| Arc.MakeRoomInT2 | app.py:84-89 | this block never touches `t1` or `b1` and never grows `b2` |
| Arc.Step | app.py:70-92 | a hit iff the page is in `t1` or `t2`; a hit in `t2` changes no state; the ghost lists never grow |
| Arc.MakeRoomRemovesOnlyFromT1 | app.py:79-89 | under the invariant, lines 79-83 pop `t1`'s oldest page exactly when `t1` is full, and lines 84-89 remove nothing |
| Arc.GhostBranchUnreachable | app.py:76-77 | under the invariant a step always succeeds and is never a ghost-hit `Miss` |
| Arc.HitInT1Promotes | app.py:70-73 | a hit in `t1` removes the page from `t1` (others keep their order) and appends it to `t2`, whose `maxlen` drops the oldest page when full |
| Arc.TrueMissEntersT1 | app.py:78-92 | a true miss pops `t1`'s oldest page only if `t1` is full, appends the page to `t1`, leaves the other lists alone, and counts an eviction |
| Arc.HitInT1KeepsInv | app.py:70-73 | promotion keeps the lists disjoint, duplicate-free and within half the capacity |
| Arc.TrueMissKeepsInv | app.py:78-90 | entering a fresh page into `t1` keeps the invariant |
| Arc.StepKeepsInv | app.py:65-92 | with `cache_size >= 2` each step succeeds and keeps `t1`, `t2` disjoint, duplicate-free, each at most `cache_size // 2` long, and the ghost lists empty |
| Arc.Run | app.py:68-92 | after any successful run, `hit + miss == file_size` and `evictions <= miss` |
| Arc.GhostListsStayEmpty | app.py:66-92 | for any capacity, `b1` and `b2` are empty after every successful prefix |
| Arc.RunInvariant | app.py:65-92 | with `cache_size >= 2` every prefix completes, keeps the invariant, and `evictions == miss` |
| Arc.RunFailsWithoutRoom | app.py:65-83 | with `cache_size` 0 or 1 the first access raises `IndexError` from `popleft` on the empty `t1` |
| Arc.RunEnds | app.py:65-96 | with `cache_size >= 2` the run completes with `len(t1) + len(t2)` at most `cache_size` and every miss counted as an eviction; with 0 or 1 a nonempty trace fails on `popleft` |
| Arc.Simulate | app.py:64-100 | returns iff the trace is nonempty and `cache_size >= 2`; a negative capacity is a `ValueError`, an empty trace a `ZeroDivisionError`, capacity 0 or 1 an `IndexError`; rates are consistent, memory usage in [0,1], and the eviction rate equals the miss rate; the returned numbers are exactly the final run's hit, miss and eviction counts over `file_size`, its resident count over `cache_size`, and one and two hundredths of the hit rate (`Cache.Measures`), with `len(t1) + len(t2)` as the resident count |
| Arc.PhantomEviction | app.py:78-92 | with capacity 4, the first access evicts nothing yet is counted as an eviction |
| RandomCache.Step | app.py:134-141 | fails iff a miss must pop an empty set (capacity at most 0); a hit iff the page is resident, an eviction iff it is a miss on a full set; the page is resident afterwards and nothing else is added; size changes follow the size law |
| RandomCache.StepChanges | app.py:134-140 | a hit changes nothing; a miss below capacity only adds the page; a miss at capacity removes exactly one resident page, whichever `pop` picks at that step, and adds the page |
| RandomCache.Run | app.py:132-141 | after any successful run, `hit + miss == file_size` and `evictions <= miss` |
| RandomCache.RunFailsWithoutCapacity | app.py:137-139 | with `cache_size <= 0` the first access raises `KeyError` from `pop` on the empty set |
| RandomCache.RunInvariant | app.py:130-141 | for every chooser and positive capacity, every prefix completes, holds only requested pages including the latest, and obeys the size law |
| RandomCache.UniverseFits | app.py:133-141 | with `cache_size >= 101` nothing is ever evicted, the set is exactly the distinct requested pages, and the result does not depend on which page `pop` would pick |
| RandomCache.Simulate | app.py:129-149 | returns iff the trace is nonempty and the capacity positive; rates are consistent, memory usage in [0,1], and the label is `"O(1)"`; the returned numbers are exactly the final run's hit, miss and eviction counts over `file_size`, its resident count over `cache_size`, and one and two hundredths of the hit rate (`Cache.Measures`) |

## Left out

- Flask routes, request parsing and responses (app.py:151-227): HTTP plumbing with no algorithmic content.
- File upload handling (`allowed_file`, `secure_filename`, saving, `os.path.getsize`; app.py:13-14, 160-168): this is I/O. `file_size` is the length of the trace.
- The graph script run through `subprocess` (app.py:188) and `generate_complexity_graphs.py`: plotting, outside the simulations.
- `random.randint(0, 100)` (app.py:21, 44, 69, 107, 133): the pages are an input trace. Only the universe lemmas require the pages to lie in 0..100.
- `set.pop()` (app.py:139): the page it returns depends on the interpreter's hash-table layout and on where earlier pops left its search finger. The model takes the victim from a chooser `pop(i, s)` that may be any function of the step index `i` and the resident set `s`, as long as it returns a member of `s`. On a fixed trace, every sequence of victims is such a chooser. The random-policy results hold for every chooser.
- Floating point: the rates are exact real quotients of the integer counters, and `latency_reduction` and `bandwidth_saving` are `hit_rate * 0.01` and `hit_rate * 0.02` as reals. IEEE rounding is not modelled.
- Complexity labels: they are carried through as strings and state nothing about running time.
