# michie memoization runtime, modelled in Dafny

This project models the runtime behind michie's `#[memoized]` attribute:

- **The store contract.** `MemoizationStore<K, Q, R>` provides `insert(key, value)` and `get(&query)`, where the query is a borrowed view of the key. The contract has two baseline backends, `HashMap` and `BTreeMap`.
- **The protocol.** Every memoized call runs lookup/compute/insert against a per-call-site registry of stores, with one store per generic instantiation.
- **Two custom stores from the tests.** One is a no-op store that never hits. The other is a conditional store that admits only `Ok` results.

Everything is a value. Stores and the registry are immutable maps. One call is a pure function that takes the registry and returns the call's result together with the new registry. The body and the store initializer are passed in as pure functions.

Modules:

- `Wrappers` (`wrappers.dfy`): `Option` and `Result`.
- `MemoStore` (`store.dfy`): the trait over a finite map. Both backends are one `MapStore` tagged with its `Backend`. `borrow: K -> Q` stands for `K: Borrow<Q>`, and `IsBorrow` requires it to be injective. The file also holds operation sequences (`Run`) used to compare backends and to prove last-write-wins. `StoreOps` is the trait as the protocol sees it: an owned-key `get` and an `insert` over any store type `S`.
- `Protocol` (`protocol.dfy`): the hand-expanded macro output `GenericStruct::f_`.
  - A `Slot` records the instantiation tag it was created under.
  - `Downcast` succeeds only for that tag (`DowncastSucceeds`).
  - `Memoize` runs these steps: key, `entry(tag).or_insert_with(init)`, lookup, then hit or miss.
  - On a miss it runs these steps: body, `get_mut(&tag).unwrap()`, downcast, insert.
  - A failed `unwrap` is the `Panicked` outcome. It is proved unreachable for well-tagged registries.
- `StubStore` (`stub_store.dfy`): the no-op stores of the `store_init_*` tests.
- `ConditionalStore` (`conditional_store.dfy`): the `Ok`-only store and `may_fail`.
- `Scenarios` (`scenarios.dfy`): the concrete calls the tests make, with `conditional_caching` both as written (default store) and as evidently intended (the `Ok`-only store); see "## Findings".

The three-parameter trait of `src/lib.rs` differs from the two-parameter `MemoizationStore<K, R>` that the tests implement. The model treats the tests' form as the special case `Q = K`. `BorrowedQueryAgrees` shows that looking up `borrow(k)` is the same as looking up `k`.

## Model

| member | source | states |
|---|---|---|
| MemoStore.Get | src/lib.rs:29-32 | `get(&q)` hits exactly when some stored key borrows to `q`, and then yields that key's value (same for `BTreeMap`, lines 43-45) |
| MemoStore.Insert | src/lib.rs:26-28 | `insert(k, v)` makes `k` map to `v`, leaves every other key's lookup unchanged, and adds `k` to the key set |
| MemoStore.Empty | tests/test.rs:81-82 | a default-constructed map store misses on every key |
| MemoStore.BorrowedQueryAgrees | src/lib.rs:12-19 | under `K: Borrow<Q>`, `get(borrow(k))` gives the same result as lookup by the owned key `k` |
| MemoStore.GetAfterInsert | src/lib.rs:26-32 | after `insert(k, v)`, `get(borrow(k))` returns `Some(v)` |
| MemoStore.InsertFrame | src/lib.rs:40-45 | `insert(k, v)` leaves `get` unchanged for every query other than `borrow(k)` |
| MemoStore.LastWriteWins | src/lib.rs:40-42 | inserting an existing key again replaces its old value, with no trace of the earlier write |
| MemoStore.SameEntriesSameRun | src/lib.rs:21-46 | operation sequences over two stores with equal entries observe equal `get` results and end with equal entries; no operation reads the backend tag |
| MemoStore.BackendsAgree | src/lib.rs:21-46 | for any sequence of inserts and gets, the `HashMap` and `BTreeMap` backends return identical `get` results; this follows from modelling both as the same map, which is what their delegation to map insert/get justifies |
| MemoStore.GetsDoNotMutate | src/lib.rs:18 | `get` takes `&self`: removing every `get` from a run leaves the final store the same (in the model `get` returns no store, so this confirms a run threads the store past each `get`) |
| MemoStore.RunLastWriteWins | src/lib.rs:26-28 | after a run, a key holds the value of the last `insert` of that key |
| MemoStore.RunUntouched | src/lib.rs:40-42 | a key that no `insert` in the run writes keeps its earlier lookup |
| MemoStore.NeverInsertedMisses | src/lib.rs:43-45 | `get` on the borrowed view of a key that was never inserted returns `None` |
| MemoStore.ReplaceOrAddAdmits | src/lib.rs:12-19 | every replace-or-add store also admits or ignores each insert (a key then holds the new value or what it held before; other keys are untouched) |
| MemoStore.MapStoreOps | src/lib.rs:21-33 | the baseline backends have replace-or-add semantics (a key hits with the last value inserted, other keys are untouched), and so admit or ignore each insert; `get` hits exactly on stored keys |
| Protocol.DowncastSucceeds | tests/test.rs:89-103 | in a registry whose every slot is filed under the tag it was created with, the downcast of a tag's slot always recovers that slot's store, so the `unwrap` cannot fail |
| Protocol.EntryOrInsertWith | tests/test.rs:78-86 | the slot is created from the initializer only when the tag is absent; an existing slot and every other slot are kept as they are; the call reports whether it created the slot |
| Protocol.Memoize | tests/test.rs:59-145 | from a well-tagged registry the call never panics (neither `unwrap` fails) and the registry stays well-tagged; the tag set only grows by the called tag; other tags' slots are untouched; the initializer ran iff the tag was absent; the body ran iff the lookup missed, and then the call returns the body's value; otherwise it returns the stored value |
| Protocol.MemoizeHit | tests/test.rs:104-110 | if the tag's store already holds a value for the key, the call returns it, does not run the body or the initializer, and leaves the registry unchanged |
| Protocol.MemoizeMiss | tests/test.rs:111-144 | on a miss the call returns exactly the body's value, and the tag's slot holds the store's `insert` of it (into the existing store, or the freshly initialized one) |
| Protocol.KeyHitsAfterCall | tests/test.rs:143 | with a replace-or-add store, after any call the tag's store maps the key to the value the call returned |
| Protocol.RepeatHits | tests/test.rs:104-109 | with a replace-or-add store, the call right after a call with the same key (other arguments may differ) returns the first call's value from the store, without running the body and without changing the registry; `ReplayRepeatHits` covers later calls |
| Protocol.Isolation | tests/test.rs:70-77 | a call at one instantiation tag does not change another tag's slot or what a call at that other tag returns |
| Protocol.Replay | tests/test.rs:80 | over a sequence of calls the registry only grows; from a well-tagged registry every call returns and the registry stays well-tagged |
| Protocol.InitAtMostOnce | tests/test.rs:80-86 | over any sequence of calls, the initializer runs at a call iff that call is the first at a tag the registry did not already hold; so it runs at most once per tag |
| Protocol.StepLookup | tests/test.rs:104-143 | with a replace-or-add store, a call changes what a tag's store holds at a key only for its own tag and key, which then holds the returned value |
| Protocol.StaysCached | tests/test.rs:104-110 | with a store that admits or ignores each insert (the map backends, the `Ok`-only store, the no-op store), once a key is cached at a tag, every later call in a run with that tag and key hits and returns the cached value |
| Protocol.ReplayRepeatHits | tests/test.rs:104-110 | over any run, with a replace-or-add store, a call whose tag and key an earlier call had does not run the body and returns the earlier call's value, whatever calls come in between |
| Protocol.ComputedIffFirstMiss | tests/test.rs:104-111 | over any run, with a replace-or-add store, the body runs at a call iff the key was missing from the tag's store before the run and no earlier call had the same tag and key; so the body runs at most once per tag and key |
| Protocol.StepFrame | tests/test.rs:104-143 | with a store that admits or ignores each insert, a call leaves what every other tag and key hold as it was, and at its own tag and key the store either holds the returned value or is unchanged |
| Protocol.MemoizeTransparent | tests/test.rs:104-144 | with a store that admits or ignores each insert, a body that depends only on the key, and stores that hold only the body's results, a memoized call returns exactly `body(args)`, and the stores still hold only the body's results afterwards |
| Protocol.ReplayTransparent | tests/test.rs:104-144 | under the same conditions, every call in any run returns what the unwrapped body returns for its arguments |
| StubStore.Ops | tests/test.rs:209-214 | the no-op store's `get` always misses and its `insert` changes nothing, so it ignores every insert |
| StubStore.AlwaysComputes | tests/test.rs:221-225 | with the no-op store every call runs the body and returns its value, and the slot stays as it was |
| ConditionalStore.Default | tests/examples.rs:7-8 | the default store is empty and holds only `Ok` values |
| ConditionalStore.OkInsert | tests/examples.rs:11-15 | inserting an `Err` leaves the store unchanged; inserting an `Ok` stores it so that `get` returns it; other keys are untouched |
| ConditionalStore.InsertKeepsAllOk | tests/examples.rs:11-15 | the admission policy keeps "every held value is `Ok`" whatever is inserted |
| ConditionalStore.GetNeverErr | tests/examples.rs:17-19 | on an all-`Ok` store, `get` never returns an `Err` |
| ConditionalStore.Ops | tests/examples.rs:10-20 | as a store implementation: `insert(k, Err(e))` is a no-op, `insert(k, Ok(t))` then `get(&k)` returns `Some(Ok(t))`, all-`Ok` stores stay all-`Ok`, and the store admits or ignores each insert |
| ConditionalStore.MemoizeKeepsAllOk | tests/examples.rs:10-20 | memoizing over the conditional store keeps every slot all-`Ok`, so an `Err` result is always freshly computed and never served from the store |
| ConditionalStore.RefusedResultIsRecomputed | tests/examples.rs:11-15 | a call that returns `Err` leaves its key uncached, so the next call with that key runs the body again (`RefusedKeyStaysUncached` covers later calls) |
| ConditionalStore.RefusedKeyStaysUncached | tests/examples.rs:11-15 | over any run, for a key the tag's store lacks at the start, a call at that tag and key runs the body whenever every earlier call at that tag and key returned `Err`, whatever calls come in between |
| ConditionalStore.MayFail | tests/examples.rs:23-29 | `may_fail(n)` is `Err(())` iff `n` is even, and `Ok(1)` otherwise |
| Scenarios.SanityScenario | tests/test.rs:5-11 | `f(false, 2)` returns 6 and creates the store; the next call with `b = 2` returns 6 from the store, whatever `a` is |
| Scenarios.SanitySiteIsCoherent | tests/test.rs:6-9 | the `sanity` call site has a replace-or-add store, a body that depends only on the key `b`, and starts from stores that hold nothing |
| Scenarios.SanityRun | tests/test.rs:5-11 | over any run of calls, every call returns `b + 4`, and a call whose `b` an earlier call already had is served from the store without running the body |
| Scenarios.GenericScenario | tests/test.rs:155-157 | `f(4)` returns `(false, 4)` and `f("foo")` returns `(false, "foo")`; each instantiation gets its own store, and the second call leaves the first instantiation's slot untouched |
| Scenarios.StubScenario | tests/test.rs:221-225 | over the no-op store `f(2)` returns 2, and a repeat call computes 2 again |
| Scenarios.MayFailAsWritten | tests/examples.rs:22-31 | as written, `may_fail` is memoized over the default `HashMap` store: `may_fail(2)` returns `Err(())` and stores it under key 2, and a second `may_fail(2)` is served that `Err(())` from the store without running the body |
| Scenarios.MayFailScenario | tests/examples.rs:10-32 | with the conditional store as `store_type`: `may_fail(2)` returns `Err(())` and caches nothing for key 2, so a repeat runs the body again; `may_fail(3)` then returns `Ok(1)` and caches it under key 3 |
| Scenarios.MayFailRun | tests/examples.rs:10-32 | with the conditional store, over any run every call returns what `may_fail` computes, and every call with an even input runs the body |

## Left out

- Locking: the `Mutex` around the registry, `lock().expect(...)` on a poisoned lock, and dropping the guard between lookup and insert (tests/test.rs:60-69, 107, 112-121). The model runs calls one at a time. The race in which several threads miss and all insert is therefore not modelled.
- The `Once` and `MaybeUninit` static that hold the registry (tests/test.rs:27-58). The registry is explicit state that starts as the empty map. Each call site has its own registry, and the model handles one at a time.
- `TypeId::of`, `Box<dyn Any>` and `downcast_mut` (tests/test.rs:70-103). The model uses an abstract tag and one store type per model instance. The downcast is a comparison of tags, and the well-tagged registry invariant guarantees it succeeds.
- The `michie_macro::memoized` procedural macro and its attribute parsing (`key_expr`, `key_type`, `store_type`, `store_init`, inference of the store type). This macro is not part of this model. Its output is represented by a `CallSite` record.
- Compile-only and trybuild tests (`errors`, `key_type_does_not_need_to_be_clone`, `store_type_is_inferred*`, `trait_functions_are_called_explicitly`). They check type-checking and method resolution, not runtime behaviour. `store_type_provided_as_path` and `on_a_fn_in_a_trait_impl_block` behave at run time like `sanity` and add nothing to model.
- `store_init_is_used` (tests/test.rs:329-339) uses a panicking initializer. Initializers here are pure functions and cannot panic. `InitAtMostOnce` states the part that matters: the initializer runs exactly at the first call for a tag.
- Protocol.MemoizeTransparent, Protocol.ReplayTransparent: proved only under three hypotheses. The store must admit or ignore each insert (`AdmitsOrIgnores`); the map backends, the no-op store and the `Ok`-only store all meet this, and a store that rewrites or evicts other keys does not. The body must depend only on the key. The stores must start out holding only the body's results. A store initializer that comes pre-filled with other values is served as is, as in the source.
- Re-entrancy: the model's body is a pure function of the arguments, so it cannot call back into a memoized function and change the registry in the middle of a call.
- Hashing, ordering and rebalancing inside `HashMap`/`BTreeMap`, and `Clone`. Dafny values are already copies, so a hit returns the stored value itself.
- Scenarios.SanityScenario, Scenarios.SanityRun: `b + 4` is computed on unbounded naturals, so a `usize` overflow is not modelled. The test only calls it with `b = 2`.

## Findings

| source | as written | input that shows it | evidently intended | confidence | as-written member | corrected member |
|---|---|---|---|---|---|---|
| tests/examples.rs:22 | `#[memoized(key_expr = input)]` names no `store_type`, so `may_fail` is memoized over the default `HashMap<usize, Result<usize, ()>>`, and the `Ok`-only `Store` defined at lines 7-20 is never used; the asserts at lines 31-32 compare only return values, which agree under either store | `may_fail(2)` twice: the first call stores `Err(())` under key 2 and the second is served it from the store | `store_type = Store<usize, Result<usize, ()>>`, so that an `Err` is never cached and `may_fail(2)` runs again | not executed | Scenarios.MayFailAsWritten | Scenarios.MayFailScenario |
