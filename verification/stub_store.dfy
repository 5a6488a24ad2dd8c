/**
 The no-op stores of tests/test.rs (`store_init_is_omitted` and its siblings):
 `get` always misses and `insert` keeps nothing, so every call recomputes.
 */
module StubStore {
  import opened Wrappers
  import opened MemoStore
  import opened Protocol

  datatype NullStore = NullStore

  /** The stub's `MemoizationStore` implementation. */
  function Ops<K(!new), R(!new)>(): (ops: StoreOps<NullStore, K, R>)
    ensures forall s, k, v :: ops.insert(s, k, v) == s
    ensures forall s, k :: ops.get(s, k) == None
    ensures AdmitsOrIgnores(ops)
  {
    StoreOps((s, k) => None, (s, k, v) => s)
  }

  /**
   With a store that never hits, every call runs the body, returns its value,
   and leaves the slot for `tag` as it found it (or as `init` made it).
   */
  lemma AlwaysComputes<Tag(!new), A, K(!new), R(!new)>(site: CallSite<NullStore, A, K, R>, reg: Registry<Tag, NullStore>, tag: Tag, args: A)
    requires site.store == Ops()
    requires WellTagged(reg)
    ensures var c := Memoize(site, reg, tag, args);
      && c.Returned? && c.computed
      && c.value == site.body(args)
      && c.registry[tag] == Slot(tag, SlotStore(reg, tag, site.init))
  {
  }
}
