/**
 The lookup/compute/insert protocol a memoized function runs on every call,
 together with its call site's registry of per-instantiation stores, as the
 expanded `#[memoized]` output of `GenericStruct::f_` in tests/test.rs does it.

 A call site owns one registry, a table from an instantiation tag (the
 `TypeId` of `(K, R)`) to a type-erased slot holding that instantiation's
 store. The model runs calls one after another: the mutex, the `Once` that
 creates the table and the `MaybeUninit` static are not modelled, and the
 registry is passed in and returned explicitly.
 */
module Protocol {
  import opened Wrappers
  import opened MemoStore

  /** A type-erased slot: a store, and the instantiation tag it was created under. */
  datatype Slot<Tag, S> = Slot(createdAs: Tag, store: S)

  /** One call site's table of slots, keyed by instantiation tag. */
  type Registry<Tag, S> = map<Tag, Slot<Tag, S>>

  /** `downcast_mut`: recovers the store only when it is accessed as the tag it was created under. */
  function Downcast<Tag(==), S>(slot: Slot<Tag, S>, tag: Tag): (r: Option<S>)
    ensures r.Some? <==> slot.createdAs == tag
    ensures r.Some? ==> r.value == slot.store
  {
    if slot.createdAs == tag then Some(slot.store) else None
  }

  /** Every slot is filed under the tag it was created with, so every downcast succeeds. */
  ghost predicate WellTagged<Tag(!new), S>(reg: Registry<Tag, S>) {
    forall t :: t in reg ==> reg[t].createdAs == t
  }

  /** `entry(tag).or_insert_with(init)`: creates the slot from `init` only when the tag has none. */
  function EntryOrInsertWith<Tag(!new)(==), S>(reg: Registry<Tag, S>, tag: Tag, init: () -> S)
    : (r: (Registry<Tag, S>, bool))
    ensures tag in r.0
    ensures r.0.Keys == reg.Keys + {tag}
    ensures r.1 <==> tag !in reg
    ensures tag in reg ==> r.0 == reg
    ensures tag !in reg ==> r.0[tag] == Slot(tag, init())
    ensures forall t :: t in reg ==> r.0[t] == reg[t]
    ensures WellTagged(reg) ==> WellTagged(r.0)
  {
    if tag in reg then (reg, false) else (reg[tag := Slot(tag, init())], true)
  }

  /** The store a call at `tag` finds once its slot exists: the existing one, or a fresh `init()`. */
  function SlotStore<Tag, S>(reg: Registry<Tag, S>, tag: Tag, init: () -> S): S {
    if tag in reg then reg[tag].store else init()
  }

  /**
   What the attribute supplies for one call site: the store's operations, the
   key expression over the arguments, the original body, and the store
   initializer.
   */
  datatype CallSite<!S, !A, !K, !R> = CallSite(
    store: StoreOps<S, K, R>,
    keyOf: A -> K,
    body: A -> R,
    init: () -> S)

  /**
   The outcome of one call. `computed` says whether the body ran (a miss);
   `initialized` says whether the store initializer ran. `Panicked` stands for
   a failed `unwrap` of a slot lookup or downcast.
   */
  datatype Call<Tag, S, R> =
    | Returned(value: R, registry: Registry<Tag, S>, computed: bool, initialized: bool)
    | Panicked

  /**
   One call of a memoized function at instantiation `tag` with arguments `args`:
   compute the key, find or create the slot, look the key up; on a hit return
   the stored value, on a miss run the body, look the slot up again, insert the
   result and return it.
   */
  function Memoize<Tag(!new)(==), S, A, K, R>(site: CallSite<S, A, K, R>, reg: Registry<Tag, S>, tag: Tag, args: A)
    : (c: Call<Tag, S, R>)
    ensures WellTagged(reg) ==> c.Returned? && WellTagged(c.registry)
    ensures c.Returned? ==> c.registry.Keys == reg.Keys + {tag}
    ensures c.Returned? ==> forall t :: t in reg && t != tag ==> c.registry[t] == reg[t]
    ensures c.Returned? ==> (c.initialized <==> tag !in reg)
    ensures c.Returned? ==> (c.computed <==> site.store.get(SlotStore(reg, tag, site.init), site.keyOf(args)).None?)
    ensures c.Returned? && c.computed ==> c.value == site.body(args)
    ensures c.Returned? && !c.computed ==>
      site.store.get(SlotStore(reg, tag, site.init), site.keyOf(args)) == Some(c.value)
  {
    var key := site.keyOf(args);
    var (reg1, created) := EntryOrInsertWith(reg, tag, site.init);
    match Downcast(reg1[tag], tag)
    case None => Panicked
    case Some(store) =>
      match site.store.get(store, key)
      case Some(hit) => Returned(hit, reg1, false, created)
      case None =>
        var miss := site.body(args);
        // Second phase: `get_mut(&type_id).unwrap()` and a second downcast.
        if tag !in reg1 then Panicked
        else
          match Downcast(reg1[tag], tag)
          case None => Panicked
          case Some(store2) =>
            var slot := reg1[tag].(store := site.store.insert(store2, key, miss));
            Returned(miss, reg1[tag := slot], true, created)
  }

  /** Hit path: a stored value is returned as is, the body does not run and the registry is unchanged. */
  lemma MemoizeHit<Tag(!new), S, A, K, R>(site: CallSite<S, A, K, R>, reg: Registry<Tag, S>, tag: Tag, args: A, v: R)
    requires WellTagged(reg)
    requires tag in reg && site.store.get(reg[tag].store, site.keyOf(args)) == Some(v)
    ensures Memoize(site, reg, tag, args) == Returned(v, reg, false, false)
  {
  }

  /**
   Miss path: the call returns exactly what the body computed, and the slot for
   `tag` (the existing one, or the one just created) now holds the store's
   `insert` of that result; no other slot changes.
   */
  lemma MemoizeMiss<Tag(!new), S, A, K, R>(site: CallSite<S, A, K, R>, reg: Registry<Tag, S>, tag: Tag, args: A)
    requires WellTagged(reg)
    requires site.store.get(SlotStore(reg, tag, site.init), site.keyOf(args)) == None
    ensures var c := Memoize(site, reg, tag, args);
      && c.Returned? && c.computed
      && c.value == site.body(args)
      && c.registry == reg[tag := Slot(tag, site.store.insert(SlotStore(reg, tag, site.init), site.keyOf(args), c.value))]
  {
  }

  /** With a replace-or-add store, after any call the key maps to the value the call returned. */
  lemma KeyHitsAfterCall<Tag(!new), S(!new), A, K(!new), R(!new)>(
    site: CallSite<S, A, K, R>, reg: Registry<Tag, S>, tag: Tag, args: A)
    requires ReplaceOrAdd(site.store)
    requires WellTagged(reg)
    ensures var c := Memoize(site, reg, tag, args);
      c.Returned? && site.store.get(c.registry[tag].store, site.keyOf(args)) == Some(c.value)
  {
  }

  /**
   With a replace-or-add store, calling again with the same key (whatever the
   other arguments) hits: it returns the first call's value without running
   the body and changes nothing.
   */
  lemma RepeatHits<Tag(!new), S(!new), A, K(!new), R(!new)>(
    site: CallSite<S, A, K, R>, reg: Registry<Tag, S>, tag: Tag, first: A, second: A)
    requires ReplaceOrAdd(site.store)
    requires WellTagged(reg)
    requires site.keyOf(first) == site.keyOf(second)
    ensures var c1 := Memoize(site, reg, tag, first);
      Memoize(site, c1.registry, tag, second) == Returned(c1.value, c1.registry, false, false)
  {
  }

  /**
   Per-instantiation isolation: a call at one tag does not change what a call
   at another tag returns, nor the other tag's slot.
   */
  lemma Isolation<Tag(!new), S, A, K, R>(
    site: CallSite<S, A, K, R>, reg: Registry<Tag, S>, other: Tag, otherArgs: A, tag: Tag, args: A)
    requires WellTagged(reg)
    requires other != tag
    ensures var c0 := Memoize(site, reg, other, otherArgs);
      var before := Memoize(site, reg, tag, args);
      var after := Memoize(site, c0.registry, tag, args);
      && (tag in reg ==> c0.registry[tag] == reg[tag])
      && after.value == before.value
      && after.computed == before.computed
      && after.initialized == before.initialized
      && after.registry[tag] == before.registry[tag]
  {
  }

  /** One invocation in a sequence of calls at one call site. */
  datatype Invocation<Tag, A> = Invocation(tag: Tag, args: A)

  /**
   Runs the calls one after another, threading the registry; yields each
   call's outcome and the final registry. After a `Panicked` outcome the run
   continues from the registry as it was before that call; in the source a
   panic while the guard is held would poison the mutex, so every later call
   would panic too. That path cannot be reached from a well-tagged registry,
   which every call keeps well-tagged.
   */
  function Replay<Tag(!new)(==), S, A, K, R>(site: CallSite<S, A, K, R>, reg: Registry<Tag, S>, calls: seq<Invocation<Tag, A>>)
    : (r: (seq<Call<Tag, S, R>>, Registry<Tag, S>))
    ensures |r.0| == |calls|
    ensures reg.Keys <= r.1.Keys
    ensures WellTagged(reg) ==> WellTagged(r.1) && forall i :: 0 <= i < |calls| ==> r.0[i].Returned?
    decreases |calls|
  {
    if |calls| == 0 then ([], reg)
    else
      var c := Memoize(site, reg, calls[0].tag, calls[0].args);
      var next := if c.Returned? then c.registry else reg;
      var rest := Replay(site, next, calls[1..]);
      ([c] + rest.0, rest.1)
  }

  /**
   The store initializer runs exactly at the first call for a tag the registry
   did not hold, and never again for that tag: an existing slot is reused,
   never replaced.
   */
  lemma {:induction false} InitAtMostOnce<Tag(!new), S, A, K, R>(
    site: CallSite<S, A, K, R>, reg: Registry<Tag, S>, calls: seq<Invocation<Tag, A>>)
    requires WellTagged(reg)
    ensures var outs := Replay(site, reg, calls).0;
      forall i :: 0 <= i < |calls| ==>
        (outs[i].initialized <==> calls[i].tag !in reg && forall j :: 0 <= j < i ==> calls[j].tag != calls[i].tag)
    ensures var outs := Replay(site, reg, calls).0;
      forall i, j :: 0 <= i < j < |calls| && calls[i].tag == calls[j].tag ==> !outs[j].initialized
    decreases |calls|
  {
    var outs := Replay(site, reg, calls).0;
    if |calls| > 0 {
      var c := Memoize(site, reg, calls[0].tag, calls[0].args);
      var rest := calls[1..];
      InitAtMostOnce(site, c.registry, rest);
      assert outs == [c] + Replay(site, c.registry, rest).0;
      forall i | 0 < i < |calls|
        ensures outs[i].initialized <==> calls[i].tag !in reg && forall j :: 0 <= j < i ==> calls[j].tag != calls[i].tag
      {
        assert outs[i] == Replay(site, c.registry, rest).0[i - 1];
        assert calls[i] == rest[i - 1];
        assert (forall j :: 0 <= j < i - 1 ==> rest[j].tag != calls[i].tag)
           <==> (forall j :: 1 <= j < i ==> calls[j].tag != calls[i].tag);
      }
    }
  }

  /** In a well-tagged registry, the slot filed under a tag always downcasts to its store. */
  lemma DowncastSucceeds<Tag(!new), S>(reg: Registry<Tag, S>, t: Tag)
    requires WellTagged(reg) && t in reg
    ensures Downcast(reg[t], t) == Some(reg[t].store)
  {
  }

  /**
   With a replace-or-add store, a call changes what the store for tag `t`
   holds at key `k` only when `t` and `k` are the call's own tag and key, and
   then `k` holds the value the call returned.
   */
  lemma StepLookup<Tag(!new), S(!new), A, K(!new), R(!new)>(
    site: CallSite<S, A, K, R>, reg: Registry<Tag, S>, tag: Tag, args: A, t: Tag, k: K)
    requires ReplaceOrAdd(site.store)
    requires WellTagged(reg)
    ensures var c := Memoize(site, reg, tag, args);
      site.store.get(SlotStore(c.registry, t, site.init), k)
        == if t == tag && k == site.keyOf(args) then Some(c.value)
           else site.store.get(SlotStore(reg, t, site.init), k)
  {
  }

  /**
   With a store that admits or ignores each insert (the map backends, the
   `Ok`-only store, the no-op store), once a key is cached at a tag, every
   later call with that tag and key hits with the cached value.
   */
  lemma {:induction false} StaysCached<Tag(!new), S(!new), A, K(!new), R(!new)>(
    site: CallSite<S, A, K, R>, reg: Registry<Tag, S>, calls: seq<Invocation<Tag, A>>, t: Tag, k: K, v: R)
    requires AdmitsOrIgnores(site.store)
    requires WellTagged(reg)
    requires site.store.get(SlotStore(reg, t, site.init), k) == Some(v)
    ensures var outs := Replay(site, reg, calls).0;
      forall j :: 0 <= j < |calls| && calls[j].tag == t && site.keyOf(calls[j].args) == k ==>
        !outs[j].computed && outs[j].value == v
    decreases |calls|
  {
    if |calls| > 0 {
      var c := Memoize(site, reg, calls[0].tag, calls[0].args);
      var rest := calls[1..];
      StepFrame(site, reg, calls[0].tag, calls[0].args, t, k);
      StaysCached(site, c.registry, rest, t, k, v);
      var outs := Replay(site, reg, calls).0;
      assert outs == [c] + Replay(site, c.registry, rest).0;
      forall j | 1 <= j < |calls|
        ensures outs[j] == Replay(site, c.registry, rest).0[j - 1] && calls[j] == rest[j - 1]
      {
      }
    }
  }

  /**
   Determinism on repeat, over a whole run: with a replace-or-add store, a
   call whose tag and key an earlier call already had does not run the body
   and returns that earlier call's value, whatever ran in between.
   */
  lemma {:induction false} ReplayRepeatHits<Tag(!new), S(!new), A, K(!new), R(!new)>(
    site: CallSite<S, A, K, R>, reg: Registry<Tag, S>, calls: seq<Invocation<Tag, A>>)
    requires ReplaceOrAdd(site.store)
    requires WellTagged(reg)
    ensures var outs := Replay(site, reg, calls).0;
      forall i, j :: 0 <= i < j < |calls| && calls[i].tag == calls[j].tag
                     && site.keyOf(calls[i].args) == site.keyOf(calls[j].args) ==>
        !outs[j].computed && outs[j].value == outs[i].value
    decreases |calls|
  {
    if |calls| > 0 {
      var c := Memoize(site, reg, calls[0].tag, calls[0].args);
      var rest := calls[1..];
      ReplayRepeatHits(site, c.registry, rest);
      KeyHitsAfterCall(site, reg, calls[0].tag, calls[0].args);
      ReplaceOrAddAdmits(site.store);
      StaysCached(site, c.registry, rest, calls[0].tag, site.keyOf(calls[0].args), c.value);
      var outs := Replay(site, reg, calls).0;
      assert outs == [c] + Replay(site, c.registry, rest).0;
      forall j | 1 <= j < |calls|
        ensures outs[j] == Replay(site, c.registry, rest).0[j - 1] && calls[j] == rest[j - 1]
      {
      }
    }
  }

  /**
   The body runs at a call exactly when the key was not already in the tag's
   store before the run and no earlier call had the same tag and key: with a
   replace-or-add store, the body runs at most once per tag and key.
   */
  lemma {:induction false} ComputedIffFirstMiss<Tag(!new), S(!new), A, K(!new), R(!new)>(
    site: CallSite<S, A, K, R>, reg: Registry<Tag, S>, calls: seq<Invocation<Tag, A>>)
    requires ReplaceOrAdd(site.store)
    requires WellTagged(reg)
    ensures var outs := Replay(site, reg, calls).0;
      forall j :: 0 <= j < |calls| ==>
        (outs[j].computed <==>
          && site.store.get(SlotStore(reg, calls[j].tag, site.init), site.keyOf(calls[j].args)).None?
          && forall i :: 0 <= i < j ==>
               !(calls[i].tag == calls[j].tag && site.keyOf(calls[i].args) == site.keyOf(calls[j].args)))
    decreases |calls|
  {
    if |calls| > 0 {
      var c := Memoize(site, reg, calls[0].tag, calls[0].args);
      var rest := calls[1..];
      ComputedIffFirstMiss(site, c.registry, rest);
      var outs := Replay(site, reg, calls).0;
      assert outs == [c] + Replay(site, c.registry, rest).0;
      forall j | 1 <= j < |calls|
        ensures outs[j].computed <==>
          && site.store.get(SlotStore(reg, calls[j].tag, site.init), site.keyOf(calls[j].args)).None?
          && forall i :: 0 <= i < j ==>
               !(calls[i].tag == calls[j].tag && site.keyOf(calls[i].args) == site.keyOf(calls[j].args))
      {
        assert outs[j] == Replay(site, c.registry, rest).0[j - 1];
        assert calls[j] == rest[j - 1];
        StepLookup(site, reg, calls[0].tag, calls[0].args, calls[j].tag, site.keyOf(calls[j].args));
        assert (forall i :: 0 <= i < j - 1 ==>
                  !(rest[i].tag == calls[j].tag && site.keyOf(rest[i].args) == site.keyOf(calls[j].args)))
           <==> (forall i :: 1 <= i < j ==>
                  !(calls[i].tag == calls[j].tag && site.keyOf(calls[i].args) == site.keyOf(calls[j].args)));
      }
    }
  }

  /**
   With a store that admits or ignores each insert, a call changes what the
   store for tag `t` holds at key `k` only when `t` and `k` are the call's own
   tag and key, and then `k` either holds the returned value or is as before.
   */
  lemma StepFrame<Tag(!new), S(!new), A, K(!new), R(!new)>(
    site: CallSite<S, A, K, R>, reg: Registry<Tag, S>, tag: Tag, args: A, t: Tag, k: K)
    requires AdmitsOrIgnores(site.store)
    requires WellTagged(reg)
    ensures var c := Memoize(site, reg, tag, args);
      var after := site.store.get(SlotStore(c.registry, t, site.init), k);
      var before := site.store.get(SlotStore(reg, t, site.init), k);
      if t == tag && k == site.keyOf(args) then after == Some(c.value) || after == before
      else after == before
  {
    var c := Memoize(site, reg, tag, args);
    if t == tag && c.computed {
      MemoizeMiss(site, reg, tag, args);
    }
  }

  /** The body's result depends on the arguments only through the key. */
  ghost predicate KeyDetermined<S, A(!new), K, R>(site: CallSite<S, A, K, R>) {
    forall a, b :: site.keyOf(a) == site.keyOf(b) ==> site.body(a) == site.body(b)
  }

  /** A hit in `store` for `a`'s key yields what the body computes for `a`. */
  ghost predicate Serves<S, A, K, R>(site: CallSite<S, A, K, R>, store: S, a: A) {
    var hit := site.store.get(store, site.keyOf(a));
    hit.Some? ==> hit.value == site.body(a)
  }

  /** Every store a call can find (existing, or freshly initialized) serves only the body's results. */
  ghost predicate Coherent<Tag(!new), S, A(!new), K, R>(site: CallSite<S, A, K, R>, reg: Registry<Tag, S>) {
    forall t, a :: Serves(site, SlotStore(reg, t, site.init), a)
  }

  /**
   Transparency: a memoized call returns exactly what the unwrapped body
   returns, and keeps every store serving only the body's results. This holds
   for any store that admits or ignores each insert (the map backends, the
   `Ok`-only store and the no-op store alike).
   */
  lemma MemoizeTransparent<Tag(!new), S(!new), A(!new), K(!new), R(!new)>(
    site: CallSite<S, A, K, R>, reg: Registry<Tag, S>, tag: Tag, args: A)
    requires AdmitsOrIgnores(site.store) && KeyDetermined(site)
    requires WellTagged(reg) && Coherent(site, reg)
    ensures var c := Memoize(site, reg, tag, args);
      c.value == site.body(args) && Coherent(site, c.registry)
  {
    var c := Memoize(site, reg, tag, args);
    assert Serves(site, SlotStore(reg, tag, site.init), args);
    forall t, a ensures Serves(site, SlotStore(c.registry, t, site.init), a) {
      StepFrame(site, reg, tag, args, t, site.keyOf(a));
      assert Serves(site, SlotStore(reg, t, site.init), a);
    }
  }

  /** Transparency over a whole run: every call returns what the body computes for its arguments. */
  lemma {:induction false} ReplayTransparent<Tag(!new), S(!new), A(!new), K(!new), R(!new)>(
    site: CallSite<S, A, K, R>, reg: Registry<Tag, S>, calls: seq<Invocation<Tag, A>>)
    requires AdmitsOrIgnores(site.store) && KeyDetermined(site)
    requires WellTagged(reg) && Coherent(site, reg)
    ensures var r := Replay(site, reg, calls);
      && Coherent(site, r.1)
      && forall j :: 0 <= j < |calls| ==> r.0[j].value == site.body(calls[j].args)
    decreases |calls|
  {
    if |calls| > 0 {
      var c := Memoize(site, reg, calls[0].tag, calls[0].args);
      var rest := calls[1..];
      MemoizeTransparent(site, reg, calls[0].tag, calls[0].args);
      ReplayTransparent(site, c.registry, rest);
      var outs := Replay(site, reg, calls).0;
      assert outs == [c] + Replay(site, c.registry, rest).0;
      forall j | 1 <= j < |calls|
        ensures outs[j] == Replay(site, c.registry, rest).0[j - 1] && calls[j] == rest[j - 1]
      {
      }
    }
  }
}
