# cached_func and LRU, modelled in Dafny

The library has two parts.

- **`functools::LRU<Key, Value>`** (include/lru.hpp) is a container with a
  fixed capacity. It keeps a recency list `mOrder` (front = least recently
  used) and an index `mItems` from each key to its value and to the list node
  holding the key. Both `find` and `emplace` move the touched key to the back.
  An `emplace` of a new key into a full container evicts the front key and
  reuses its list node and index node for the new key.
- **`functools::cached_func`** (cached.hpp, and the earlier cached.h) memoizes
  a callable. A call builds the argument tuple, looks it up in a mutable map,
  and returns the stored result on a hit. On a miss it calls the callable,
  stores the result and returns it.

Modules:

- `Seqs` (seqs.dfy): duplicate-freedom, `Without` (an element removed, the
  others keep their order), `Touch` (an element moved to the back) and
  `Rotated` (the `i`-th element moved to the back).
- `OrderList` (order_list.dfy): the `std::list<Key>` as a doubly linked
  list over a node arena.
  - A node index plays the part of the list iterator `Position`.
  - `push_back`, assignment through `front()` and `splice` are pure
    functions on the list value.
  - They are proved against the front-to-back traversal `slots`.
- `LruSpec` (lru_spec.dfy): the abstract container. It holds an order
  sequence, a value map and the capacity. `Find`, `Emplace` (with its four
  branches) and `Clear` are defined on it, and the lemmas prove what each
  branch does and that the invariant holds after any sequence of operations.
- `Lru` (lru.dfy): the class `LRU` with the fields `capacity`, `order` (the
  list), `items` (the index) and a ghost traversal `slots`.
  - `Valid()` is the representation invariant. Every `pos` names the node
    that holds its own key, and the list and the index hold the same keys,
    each once and at most `capacity` of them.
  - Each method is proved to move the abstract container exactly as the
    matching `LruSpec` function does.
  - The three branches of `emplace` after the `find` are the helper methods
    `EmplaceFound`, `EmplaceEvicting` and `EmplaceAppending`. `Emplace` calls
    them in the same order as the source's `if`s.
- `Memo` (memo.dfy): one call of the memoizer (`Lookup`) and a sequence of
  calls (`Run`) on values. `Lookup` is the contract of each `Call` of
  cached.hpp's class. `Run` and its lemmas describe a whole sequence of
  calls with one callable, as `std::transform` makes them.
- `Cached` (cached.dfy) and `CachedLegacy` (cached_legacy.dfy): the classes
  `cached_func` of cached.hpp and of cached.h. Each has a `cache` field that
  `Call` updates in place.
  - cached.h rebuilds the key after the arguments were forwarded into the
    callable, and so stores the result under what the forwarding left of
    them. `CachedLegacy.LookupAsWritten` is that step on values. It is
    `Memo.Lookup` when forwarding leaves the arguments as they were (see
    "## Findings").
- `Scenarios` (scenarios.dfy): call sequences of the repository's tests, with
  the results and sizes the contracts determine.

The callable of `cached_func` is a Dafny function `(E, K) -> R`. Here `K` is
the argument tuple and `E` is the outside state that a lambda capturing by
reference reads. A callable that captures nothing ignores `E`. Each `Call`
takes the current outside state as a parameter. This makes the stale result
of the reference-capturing test expressible.

## Model

| member | source | states |
|---|---|---|
| Seqs.TouchKeepsOthers | include/lru.hpp:113 | moving a key to the back keeps every other key in its relative order |
| Seqs.RotatedIsTouch | include/lru.hpp:113 | in a duplicate-free order, splicing the `i`-th element to the back is the same as removing that key and appending it |
| Seqs.DropFrontAppend | include/lru.hpp:88-96 | dropping the front key and appending an absent key keeps the order duplicate-free; the dropped key is gone |
| OrderList.Empty | include/lru.hpp:69-73 | the empty list is well formed and visits no node |
| OrderList.PushBack | include/lru.hpp:99 | `push_back` adds one node, at index `size`, holding the key; no other node changes its key |
| OrderList.SetKey | include/lru.hpp:91 | `front() = key` changes the key of exactly that node |
| OrderList.MoveToBack | include/lru.hpp:92 | `splice` creates, destroys and re-keys no node, so every stored position stays valid |
| OrderList.MoveToBackLinks | include/lru.hpp:113 | after splicing the `i`-th node to the back, the list is exactly the traversal with index `i` moved to the back |
| OrderList.PushBackLinks | include/lru.hpp:99 | after `push_back`, the list is the old traversal followed by the new node |
| OrderList.KeysMoveToBack | include/lru.hpp:113 | splicing the `i`-th node to the back moves the `i`-th key to the back of the key sequence |
| OrderList.KeysPushBack | include/lru.hpp:99 | `push_back(key)` appends `key` to the key sequence |
| OrderList.KeysSetKey | include/lru.hpp:91 | re-keying the `i`-th node replaces the `i`-th key only |
| OrderList.KeysRecycleFront | include/lru.hpp:91-92 | re-keying the front node and splicing it to the back drops the front key and appends the new one |
| Lru.ConsistentInv | include/lru.hpp:16-25 | a consistent list and index stand for an abstract container whose order has no duplicates, covers the index keys, and holds at most `capacity` keys |
| Lru.SpliceConsistent | include/lru.hpp:113 | splicing any node of the list to the back keeps every `pos` handle pointing at its own key's node |
| Lru.SpliceFind | include/lru.hpp:113 | the splice of a present key's node is the abstract `find`: the key moves to the back, nothing else changes |
| Lru.FindMiss | include/lru.hpp:109-111 | a key absent from the index makes the abstract `find` return `end()` and change nothing |
| Lru.FindHit | include/lru.hpp:109-114 | the splice at the key's stored position keeps the representation consistent and returns the key with its stored value |
| Lru.OverwriteConsistent | include/lru.hpp:84 | overwriting the value of a present key in the index keeps consistency and changes only that value |
| Lru.OverwriteStep | include/lru.hpp:81-85 | after the hitting `find`, overwriting the value is the abstract update branch of `emplace`, returning (key, not inserted) |
| Lru.AppendConsistent | include/lru.hpp:99-102 | a new node at the back plus an index entry with `pos` at that node keeps consistency |
| Lru.AppendStep | include/lru.hpp:97-104 | the `push_back` branch is the abstract appending `emplace`, returning (key, inserted) |
| Lru.FrontIndexed | include/lru.hpp:90 | in a non-empty container the front of the list is a node whose key is in the index, so `extract(front())` finds it |
| Lru.EvictNodesIndexed | include/lru.hpp:90-95 | after re-keying and splicing the front node and moving its index entry to the new key, every node is indexed under its key at its own position |
| Lru.EvictItemsIndexed | include/lru.hpp:90-95 | after the eviction every index entry, including the reused one, points at a list node holding its key |
| Lru.EvictConsistent | include/lru.hpp:88-95 | the slot-reusing eviction keeps the representation consistent |
| Lru.EvictStep | include/lru.hpp:88-96 | the eviction branch is the abstract evicting `emplace`: the front key leaves both structures, the new key is at the back, (key, inserted) is returned |
| Lru.LRU.constructor | include/lru.hpp:69-73 | a new container is empty with the given capacity; `FixedCapacity<N>::LRU` (include/lru.hpp:137-146) is this with capacity `N` |
| Lru.LRU.Valid | include/lru.hpp:132-134 | the representation invariant of the three fields: the list is linked along the traversal `slots`, every node is indexed under its key with `pos` naming that node, every entry's `pos` names a node holding its key, there are as many entries as nodes, and at most `capacity` of them |
| Lru.LRU.ValidInv | include/lru.hpp:132-134 | the fields of a valid container satisfy the abstract invariant |
| Lru.LRU.Find | include/lru.hpp:107-115 | keeps the representation valid and moves the container as abstract `find` does; a miss changes no field |
| Lru.LRU.Emplace | include/lru.hpp:76-105 | keeps the representation valid and moves the container as abstract `emplace` does, in all four branches |
| Lru.LRU.EmplaceFound | include/lru.hpp:81-86 | after a hitting `find`, the overwrite branch ends in the state and result of abstract `emplace` |
| Lru.LRU.EmplaceEvicting | include/lru.hpp:88-96 | for an absent key in a full container, recycling the front node ends in the state and result of abstract `emplace` |
| Lru.LRU.EmplaceAppending | include/lru.hpp:97-104 | for an absent key with room, `push_back` and a new index entry end in the state and result of abstract `emplace` |
| Lru.LRU.Size | include/lru.hpp:121 | `size()` equals the number of keys in the recency order and never exceeds the capacity |
| Lru.LRU.Capacity | include/lru.hpp:123 | `capacity()` is the abstract capacity, fixed at construction |
| Lru.LRU.Clear | include/lru.hpp:125-129 | both structures are emptied, the representation stays valid and the capacity is kept |
| LruSpec.Inv | include/lru.hpp:132-134 | the abstract invariant: the recency order has no duplicates, holds exactly the keys of the index, and has at most `capacity` of them |
| LruSpec.Size | include/lru.hpp:121 | in a valid container `size()` is the length of the recency order and never exceeds the capacity |
| LruSpec.Find | include/lru.hpp:107-115 | `find` returns `end()` exactly when the key is absent, and then changes nothing; a hit returns the stored value; values and capacity never change |
| LruSpec.Emplace | include/lru.hpp:76-105 | `emplace` returns `end()` exactly when the capacity is 0, and then changes nothing; otherwise it returns the key with the new value, which is stored; `inserted` holds exactly when the key was absent and the capacity is not 0; the capacity never changes |
| LruSpec.New | include/lru.hpp:69-73 | a new container satisfies the invariant, has size 0 and the given capacity |
| LruSpec.Clear | include/lru.hpp:125-129 | after `clear()` the container satisfies the invariant, has size 0 and the same capacity |
| LruSpec.FindAbsent | include/lru.hpp:109-111 | `find` of an absent key returns `end()` and leaves the container as it was |
| LruSpec.FindPresent | include/lru.hpp:113-114 | `find` of a present key returns its value, makes it most recently used, keeps the other keys in order and keeps values, size and capacity |
| LruSpec.FindIdempotent | include/lru.hpp:107-115 | a second `find` of the same key returns the same entry and changes nothing more |
| LruSpec.TouchCovers | include/lru.hpp:113 | moving a present key to the back keeps the order and the index covering the same keys |
| LruSpec.EmplaceZeroCapacity | include/lru.hpp:78-79 | with capacity 0, `emplace` returns (`end()`, false) and changes nothing; size stays 0 and `find` returns `end()` |
| LruSpec.EmplaceUpdate | include/lru.hpp:81-86 | `emplace` of a present key overwrites its value, returns (key, false), keeps the size, promotes the key to most recently used and keeps the others in order |
| LruSpec.EmplaceAppend | include/lru.hpp:97-104 | `emplace` of an absent key with room appends it at the back, stores the value, grows the size by 1 and returns (key, true) |
| LruSpec.EmplaceEvict | include/lru.hpp:88-96 | `emplace` of an absent key into a full container removes exactly the front key, keeps all other entries and their order, puts the new key at the back, keeps the size and returns (key, true) |
| LruSpec.EvictInv | include/lru.hpp:88-96 | the state after an eviction satisfies the invariant |
| LruSpec.EvictCovers | include/lru.hpp:90-94 | after an eviction the order and the index hold the same keys |
| LruSpec.EmplaceInv | include/lru.hpp:76-105 | every `emplace` keeps the invariant and the capacity |
| LruSpec.FindInv | include/lru.hpp:107-115 | every `find` keeps the invariant and the capacity |
| LruSpec.FoundKeySurvivesEviction | include/lru.hpp:88-96 | after a `find` of a key in a full container of two or more keys, an evicting `emplace` keeps that key and its value |
| LruSpec.RunInv | include/lru.hpp:69-129 | after any sequence of `emplace`, `find` and `clear`, the invariant holds, the capacity is unchanged, `size() <= capacity()`, and capacity 0 means size 0 |
| Memo.Lookup | cached.hpp:31-41 | a call leaves the key stored with the returned result, adds only that key, keeps earlier entries, returns the stored value on a hit and `f(key)` on a miss |
| Memo.Run | test/test_cached.cpp:295-307 | the repeated `operator()` calls that `std::transform` makes, one after the other on the cache the previous call left; one result per call |
| Memo.LookupSize | cached.hpp:34-39 | a hit leaves the cache and its size unchanged; a miss grows the size by exactly 1 and stores `f(key)` |
| Memo.HitIgnoresCallable | cached.hpp:34-36 | on a hit the outcome does not depend on what the callable now computes, so a changed reference-captured state gives the stale stored value |
| Memo.LookupAgrees | cached.hpp:31-41 | while every stored result is what a pure `f` computes, a call returns `f(key)` and the cache keeps agreeing with `f` |
| Memo.RunKeys | cached.hpp:33-39 | after a sequence of calls the cache holds exactly the earlier keys and the argument tuples called |
| Memo.DistinctCallsBound | cached.hpp:43-44 | from an empty cache, `cache_size()` is the number of distinct argument tuples called and never exceeds the number of calls |
| Memo.RunAgrees | cached.hpp:31-41 | with a pure callable every call of a sequence returns the callable's own result for that argument |
| Cached.CachedFunc.constructor | cached.hpp:23-29 | the callable is kept and the cache starts empty, as for each `make_cached_func` (cached.hpp:54-82) |
| Cached.CachedFunc.Call | cached.hpp:31-41 | `operator()` returns and stores what `Lookup` does for the callable at the current outside state; size grows only on a miss; with an agreeing cache the result is the callable's |
| Cached.CachedFunc.CacheSize | cached.hpp:43-44 | `cache_size()` is the number of stored tuples |
| Cached.CachedFunc.CacheClear | cached.hpp:46-47 | `cache_clear()` empties the cache |
| CachedLegacy.CachedFunc.constructor | cached.h:20-26 | the callable is kept and the cache starts empty, as for each `make_cached_func` (cached.h:50-69) |
| CachedLegacy.LookupAsWritten | cached.h:28-37 | a hit returns the stored value and changes nothing; a miss returns `f(key)` and adds exactly the rebuilt tuple to the keys, keeping every earlier entry |
| CachedLegacy.AsWrittenIntact | cached.h:30-35 | when the rebuilt tuple equals the looked-up one, a call is exactly `Memo.Lookup` |
| CachedLegacy.AsWrittenMisfiles | cached.h:34-35 | when forwarding changed the arguments, a miss leaves the argument tuple unstored (the same call misses again), files `f(key)` under the changed tuple, grows the size by 1, and the cache no longer agrees with `f` when `f` differs on the two tuples |
| CachedLegacy.CachedFunc.Call | cached.h:28-37 | `operator()` returns and stores what `LookupAsWritten` does for the argument tuple and the tuple rebuilt after forwarding: the stored value on a hit, the callable's result on a miss; a miss whose rebuilt tuple is new grows the cache by 1, and a rebuilt tuple already stored leaves the cache as it was; when forwarding leaves the arguments as they were this is `Memo.Lookup` and an agreeing cache gives the callable's result |
| CachedLegacy.CachedFunc.CacheSize | cached.h:39-40 | `cache_size()` is the number of stored tuples |
| CachedLegacy.CachedFunc.CacheClear | cached.h:42-43 | `cache_clear()` empties the cache |
| Scenarios.LruZeroCapacity | test/test_lru.cpp:16-29 | capacity 0: `capacity()` is 0, size 0, `find` gives `end()`, `emplace` gives (`end()`, false) and changes nothing |
| Scenarios.LruEvictOldest | test/test_lru.cpp:69-84 | capacity 2 with keys 1, 2, 3 emplaced: size 2, key 1 evicted, 2 and 3 found with their values |
| Scenarios.LruEvictAfterFind | test/test_lru.cpp:87-103 | capacity 2, keys 1, 2, then `find(1)`, then key 3: key 2 is evicted, 1 and 3 remain |
| Scenarios.LruEmplaceReturnValue | test/test_lru.cpp:133-163 | the return values and sizes of inserting 1 and 2 and re-emplacing 1 with a new value |
| Scenarios.LruClassEvictOldest | test/test_lru.cpp:69-84 | the same sequence on the class `Lru.LRU`: size 2, `find(1)` gives `end()`, 2 and 3 are found with their values |
| Scenarios.LruClassEvictAfterFind | test/test_lru.cpp:87-103 | the same sequence on the class `Lru.LRU`: size 2, `find(2)` gives `end()`, 1 and 3 are found with their values |
| Scenarios.Func3 | test/test_cached.cpp:77-78 | `func3(n, c, s)` is `s` followed by `n` copies of `c`, of length `|s| + n` |
| Scenarios.OneParam | test/test_cached.cpp:107-121 | the five results are those of `100 + n` (101, 101, 102, 101, 102) and the cache sizes are 0, 1, 1, 2, 2, 2 |
| Scenarios.ThreeParams | test/test_cached.cpp:139-155 | the six results are those of `func3` for the same arguments, and the sizes are 0, 1, 1, 2, 2, 2, 3: tuples differing in one component are separate entries |
| Scenarios.RefCapturing | test/test_cached.cpp:261-277 | with a reference-capturing callable, 13, 13 and 14 before the captured value changes, then the stale 13 and 14 and the fresh 25 after it; size 3 |
| Scenarios.TransformAgrees | test/test_cached.cpp:295-307 | mapping the memoizer of `100 + n` over 1, 1, 2, 1, 2, 3, 4 gives what `100 + n` itself gives |
| Scenarios.LegacyRefCapturing | test_cached.cpp:218-235 | the earlier memoizer gives the same stale results: 13, 13, 14, 13, 14, 25 |
| Scenarios.LegacyOneParam | test_cached.cpp:103-117 | with an `int` parameter, which forwarding leaves as it is, the earlier memoizer gives the results 101, 101, 102, 101, 102 and the sizes 0, 1, 1, 2, 2, 2 |
| Scenarios.MovedFrom | cached.h:34 | forwarding `(int, char, std::string)` taken by value changes the tuple exactly when the string is not empty |
| Scenarios.MovedFromIdempotent | cached.h:34-35 | forwarding a tuple already moved from leaves it as it is, so a result stored under that tuple is hit by a call with it |
| Scenarios.LegacyThreeParams | test_cached.cpp:135-144 | on the earlier memoizer with `(int, char, std::string)` taken by value, the first three calls give what `func3` gives and the sizes 0, 1, 1, 2 the test expects, yet only the tuples with the empty string are stored, so the repeated call was a miss |
| Scenarios.LegacyMovedStale | cached.h:28-37 | on the same memoizer, `(1, 'X', "str")` followed by `(1, 'X', "")` returns "strX" twice, which is not what `func3` gives for the second call |

## Left out

- Lru.LRU.Find: the returned iterator is a snapshot of the key and value. It does not alias the index entry, so writing through `operator->` of a returned iterator is not modelled. The one write the library does itself (`found->second = value` in `emplace`) is modelled as an index update.
- Lru.LRU.Emplace: the returned iterator is the same kind of (key, value) snapshot.
- `end()` (include/lru.hpp:117-119) is the `End` constructor of `Iter`, compared by value. It is not a separate member.
- The `value_type` and `iterator` proxy classes (include/lru.hpp:32-67) are C++ reference plumbing with no behaviour of their own.
- `mItems.reserve(capacity)` (include/lru.hpp:72) prevents rehashing while `size() <= capacity`, so iterators returned by `find` and `emplace` stay valid until their key is evicted (`extract` at include/lru.hpp:90) or the container is cleared. Iterator validity is not modelled: iterators are snapshots (see Lru.LRU.Find).
- Hashing, the choice between `std::map` and `std::unordered_map`, and the `std::hash` specialisations of the tests are absent: both maps are Dafny `map`s.
- The node handles of `extract` and `insert` are modelled only by their effect. The evicted key's entry is removed and an entry for the new key is added, with the old `pos`.
- Perfect forwarding, moves and `std::function` type erasure are absent: the callable is a Dafny function. The one effect of a move that is modelled is what cached.h's forwarding leaves of the arguments (`forwarded`).
- Variadic argument packs are one tuple-typed argument, and `key_type(args...)` of cached.hpp is that tuple.
- CachedLegacy.CachedFunc.Call: the key is a value copy of the arguments. What forwarding leaves of the arguments is the class's `forwarded` function, fixed when the class is built. So the clauses that name `Memo.Lookup` and `Memo.Agrees` (the intended lookup, and results that agree with the callable) hold for cached.h only when forwarding leaves the arguments unchanged and no parameter is a reference.
- CachedLegacy: `make_cached_func` of cached.h (cached.h:51) keys the map by `std::tuple<ArgTypes...>`, so a `const std::string&` parameter leaves a reference to the caller's string in the stored key. A later change to that string changes the stored key, and when the argument was a temporary (as with the `"str"` literals of test_cached.cpp:198-216) the stored reference dangles once the call returns. References and aliasing are not modelled, so this divergence from cached.hpp (which strips references at cached.hpp:60) is not represented. test/test_cached.cpp:227-249 checks the cached.hpp behaviour.
- Scenarios.Func3: the count is a `nat`; `std::string(n, c)` with a negative `int` is not modelled, and no test passes one.
- What a reference-capturing callable reads is an explicit parameter (`env`) of each call, not memory shared with the caller.
- An exception thrown by the callable (nothing stored) is not modelled, because Dafny functions are total.
- `FixedCapacity<N>::LRU` has no class of its own. It is the `LRU` constructor with capacity `N`.
- A `cached_func` whose map type is an LRU is not modelled: the memoizer's cache is an unbounded map.
- `size_type` is an unbounded `nat`; there is no overflow at such sizes.
- Thread safety: the library has none, and `operator() const` mutating a `mutable` cache is `modifies this`.
- The memory of list nodes is an arena that only grows until `clear()`; the allocator is not modelled.

## Findings

| source | as written | input that shows it | evidently intended | confidence | as-written member | corrected member |
|---|---|---|---|---|---|---|
| cached.h:34-35 | after `mFunc(std::forward<ArgTypes>(args)...)` has moved the by-value arguments into the callable, the result is emplaced under `key_type(args...)` built from the moved-from arguments | `cached_func<std::map<std::tuple<int, char, std::string>, std::string>, std::string, int, char, std::string>(func3)` (the type of test_cached.cpp:88-96): `cf(1, 'X', "str")` stores "strX" under `(1, 'X', "")`, a repeated `cf(1, 'X', "str")` misses again, and `cf(1, 'X', "")` then returns "strX" instead of "X" | the result is stored under the tuple that was looked up, as cached.hpp:33-39 does by building the key before the call | medium, not executed; the moved-from `std::string` is unspecified by the standard and empty in the common standard libraries | CachedLegacy.AsWrittenMisfiles | Memo.Lookup |
