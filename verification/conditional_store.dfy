/**
 The conditional-caching store of tests/examples.rs: a `HashMap`-backed store
 of `Result<T, E>` whose `insert` admits only `Ok` results, and the
 `may_fail` function. The test's attribute does not name this store, so the
 test itself memoizes `may_fail` over the default `HashMap`; the model covers
 both configurations (see the scenarios).
 */
module ConditionalStore {
  import opened Wrappers
  import opened MemoStore
  import opened Protocol

  /** `Store<K, Result<T, E>>`, a newtype around a `HashMap`. */
  datatype OkOnlyStore<K, T, E> = OkOnlyStore(inner: MapStore<K, Result<T, E>>)

  /** `#[derive(Default)]`: an empty map. */
  function Default<K(!new), T, E>(): (s: OkOnlyStore<K, T, E>)
    ensures AllOk(s)
    ensures forall k :: OkGet(s, k) == None
  {
    OkOnlyStore(Empty(HashMapBackend))
  }

  function OkGet<K, T, E>(s: OkOnlyStore<K, T, E>, key: K): Option<Result<T, E>> {
    Lookup(s.inner, key)
  }

  /** `insert`: an `Ok` result replaces or adds its entry; an `Err` result is dropped. */
  function OkInsert<K(!new), T, E>(s: OkOnlyStore<K, T, E>, key: K, value: Result<T, E>): (s': OkOnlyStore<K, T, E>)
    ensures value.Err? ==> s' == s
    ensures value.Ok? ==> OkGet(s', key) == Some(value)
    ensures forall k :: k != key ==> OkGet(s', k) == OkGet(s, k)
  {
    if value.Ok? then OkOnlyStore(Insert(s.inner, key, value)) else s
  }

  /** Every value the store holds is an `Ok`. */
  ghost predicate AllOk<K, T, E>(s: OkOnlyStore<K, T, E>) {
    forall k :: k in s.inner.entries ==> s.inner.entries[k].Ok?
  }

  /** The admission policy keeps the store all-`Ok`, whatever is inserted. */
  lemma InsertKeepsAllOk<K(!new), T, E>(s: OkOnlyStore<K, T, E>, key: K, value: Result<T, E>)
    requires AllOk(s)
    ensures AllOk(OkInsert(s, key, value))
  {
  }

  /** So `get` never hands back an `Err`. */
  lemma GetNeverErr<K, T, E>(s: OkOnlyStore<K, T, E>, key: K)
    requires AllOk(s)
    ensures OkGet(s, key).Some? ==> OkGet(s, key).value.Ok?
  {
  }

  /** The store's `MemoizationStore<K, Result<T, E>>` implementation. */
  function Ops<K(!new), T(!new), E(!new)>(): (ops: StoreOps<OkOnlyStore<K, T, E>, K, Result<T, E>>)
    ensures forall s, k, e :: ops.insert(s, k, Err(e)) == s
    ensures forall s, k, t :: ops.get(ops.insert(s, k, Ok(t)), k) == Some(Ok(t))
    ensures forall s, k, v :: AllOk(s) ==> AllOk(ops.insert(s, k, v))
    ensures AdmitsOrIgnores(ops)
  {
    StoreOps((s, k) => OkGet(s, k), (s, k, v) => OkInsert(s, k, v))
  }

  /** Every slot of a registry holds an all-`Ok` store. */
  ghost predicate RegistryAllOk<Tag, K, T, E>(reg: Registry<Tag, OkOnlyStore<K, T, E>>) {
    forall t :: t in reg ==> AllOk(reg[t].store)
  }

  /**
   Memoizing over this store keeps every slot all-`Ok`, so an `Err` result is
   always freshly computed, never served from the store.
   */
  lemma MemoizeKeepsAllOk<Tag(!new), A, K(!new), T(!new), E(!new)>(
    site: CallSite<OkOnlyStore<K, T, E>, A, K, Result<T, E>>, reg: Registry<Tag, OkOnlyStore<K, T, E>>, tag: Tag, args: A)
    requires site.store == Ops() && AllOk(site.init())
    requires WellTagged(reg) && RegistryAllOk(reg)
    ensures var c := Memoize(site, reg, tag, args);
      && RegistryAllOk(c.registry)
      && (c.value.Err? ==> c.computed)
  {
  }

  /**
   Conditional admission: a call whose result is an `Err` leaves its key
   uncached, so a later call with the same key runs the body again.
   */
  lemma RefusedResultIsRecomputed<Tag(!new), A, K(!new), T(!new), E(!new)>(
    site: CallSite<OkOnlyStore<K, T, E>, A, K, Result<T, E>>, reg: Registry<Tag, OkOnlyStore<K, T, E>>,
    tag: Tag, first: A, second: A)
    requires site.store == Ops() && AllOk(site.init())
    requires WellTagged(reg) && RegistryAllOk(reg)
    requires site.keyOf(first) == site.keyOf(second)
    requires Memoize(site, reg, tag, first).value.Err?
    ensures var c1 := Memoize(site, reg, tag, first);
      var c2 := Memoize(site, c1.registry, tag, second);
      && OkGet(c1.registry[tag].store, site.keyOf(first)) == None
      && c2.computed && c2.value == site.body(second)
  {
  }

  /**
   Conditional admission over a run: at a tag and key the tag's starting store
   lacks, every call whose earlier calls at that tag and key all returned
   `Err` runs the body, whatever calls come in between.
   */
  lemma {:induction false} RefusedKeyStaysUncached<Tag(!new), A, K(!new), T(!new), E(!new)>(
    site: CallSite<OkOnlyStore<K, T, E>, A, K, Result<T, E>>, reg: Registry<Tag, OkOnlyStore<K, T, E>>,
    calls: seq<Invocation<Tag, A>>, t: Tag, k: K)
    requires site.store == Ops()
    requires WellTagged(reg)
    requires OkGet(SlotStore(reg, t, site.init), k) == None
    ensures var outs := Replay(site, reg, calls).0;
      forall j :: 0 <= j < |calls| && calls[j].tag == t && site.keyOf(calls[j].args) == k
                  && (forall i :: 0 <= i < j && calls[i].tag == t && site.keyOf(calls[i].args) == k ==> outs[i].value.Err?)
        ==> outs[j].computed
    decreases |calls|
  {
    if |calls| > 0 {
      var c := Memoize(site, reg, calls[0].tag, calls[0].args);
      var rest := calls[1..];
      var outs := Replay(site, reg, calls).0;
      assert outs == [c] + Replay(site, c.registry, rest).0;
      var first := calls[0].tag == t && site.keyOf(calls[0].args) == k;
      StepFrame(site, reg, calls[0].tag, calls[0].args, t, k);
      if first && c.value.Err? {
        MemoizeMiss(site, reg, calls[0].tag, calls[0].args);
        assert OkInsert(SlotStore(reg, t, site.init), k, c.value) == SlotStore(reg, t, site.init);
      }
      if !first || c.value.Err? {
        RefusedKeyStaysUncached(site, c.registry, rest, t, k);
        forall j | 1 <= j < |calls| && calls[j].tag == t && site.keyOf(calls[j].args) == k
                   && (forall i :: 0 <= i < j && calls[i].tag == t && site.keyOf(calls[i].args) == k ==> outs[i].value.Err?)
          ensures outs[j].computed
        {
          assert outs[j] == Replay(site, c.registry, rest).0[j - 1];
          assert calls[j] == rest[j - 1];
          forall i | 0 <= i < j - 1 && rest[i].tag == t && site.keyOf(rest[i].args) == k
            ensures Replay(site, c.registry, rest).0[i].value.Err?
          {
            assert rest[i] == calls[i + 1];
            assert outs[i + 1] == Replay(site, c.registry, rest).0[i];
          }
        }
      }
    }
  }

  /** `may_fail`: `Err(())` for an even input, `Ok(input % 2)`, that is `Ok(1)`, for an odd one. */
  function MayFail(input: nat): (r: Result<nat, ()>)
    ensures r.Err? <==> input % 2 == 0
    ensures r.Ok? ==> r == Ok(1)
  {
    var remainder := input % 2;
    if remainder == 0 then Err(()) else Ok(remainder)
  }
}
