/**
 The concrete calls the repository's tests make, run against the model. Each
 test function is one call site with a single instantiation (tag `Mono`) unless
 it is generic, and starts from an empty registry.
 */
module Scenarios {
  import opened Wrappers
  import opened MemoStore
  import opened Protocol
  import StubStore
  import ConditionalStore

  /** The one instantiation of a non-generic function. */
  datatype Mono = Mono

  /** `sanity`: `f(_a: bool, b: usize) -> usize` memoized on key `b`, body `b + 4`, default `HashMap` store. */
  function SanitySite(): CallSite<MapStore<nat, nat>, (bool, nat), nat, nat> {
    CallSite(MapStoreOps<nat, nat>(), (args: (bool, nat)) => args.1, (args: (bool, nat)) => args.1 + 4, () => Empty(HashMapBackend))
  }

  /**
   `f(false, 2)` returns 6, creating the store on this first call; any later
   call with `b == 2` returns 6 from the store, whatever `a` is.
   */
  lemma SanityScenario(a: bool)
    ensures var c1 := Memoize(SanitySite(), map[], Mono, (false, 2));
      && c1 == Returned(6, c1.registry, true, true)
      && Memoize(SanitySite(), c1.registry, Mono, (a, 2)) == Returned(6, c1.registry, false, false)
  {
  }

  /** The two instantiations of `GenericStruct::<bool>::f::<U>` the test makes. */
  datatype Instantiation = UInt | UStr

  /** A value of either instantiation's `U`. */
  datatype Arg = Int(i: int) | Str(s: string)

  /** `f<U>(&self, b: U) -> (T, U)` memoized on `(self.a, b)`, body `(self.a, b)`. */
  function GenericSite(): CallSite<MapStore<(bool, Arg), (bool, Arg)>, (bool, Arg), (bool, Arg), (bool, Arg)> {
    CallSite(MapStoreOps(), (args: (bool, Arg)) => args, (args: (bool, Arg)) => args, () => Empty(HashMapBackend))
  }

  /**
   `f(4)` then `f("foo")` on `GenericStruct { a: false }`: each returns its own
   pair, each instantiation gets its own store, and the second call leaves the
   first instantiation's store as it was.
   */
  lemma GenericScenario()
    ensures var c1 := Memoize(GenericSite(), map[], UInt, (false, Int(4)));
      var c2 := Memoize(GenericSite(), c1.registry, UStr, (false, Str("foo")));
      && c1.Returned? && c1.value == (false, Int(4))
      && c2.Returned? && c2.value == (false, Str("foo"))
      && c2.initialized
      && c2.registry.Keys == {UInt, UStr}
      && c2.registry[UInt] == c1.registry[UInt]
      && Lookup(c2.registry[UStr].store, (false, Int(4))) == None
  {
  }

  /** `store_init_is_omitted`: `f(input: usize) -> usize` memoized on `input` over the no-op store. */
  function StubSite(): CallSite<StubStore.NullStore, nat, nat, nat> {
    CallSite(StubStore.Ops(), (input: nat) => input, (input: nat) => input, () => StubStore.NullStore)
  }

  /** `f(2)` returns 2, and so does every later call: the stub store never hits. */
  lemma StubScenario()
    ensures var c1 := Memoize(StubSite(), map[], Mono, 2);
      && c1.Returned? && c1.value == 2 && c1.computed
      && Memoize(StubSite(), c1.registry, Mono, 2) == Returned(2, c1.registry, true, false)
  {
  }

  /**
   `conditional_caching` as written: the attribute names only `key_expr`, so
   `may_fail` is memoized over the default `HashMap` store of `Result`s.
   */
  function MayFailDefaultSite(): CallSite<MapStore<nat, Result<nat, ()>>, nat, nat, Result<nat, ()>> {
    CallSite(MapStoreOps<nat, Result<nat, ()>>(), (input: nat) => input, ConditionalStore.MayFail, () => Empty(HashMapBackend))
  }

  /**
   As written, the test's store caches the failure: after `may_fail(2)` key 2
   holds `Err(())`, and a second `may_fail(2)` is served from the store. The
   test's assertions only compare return values, which agree either way, so
   the conditional store it defines is never exercised.
   */
  lemma MayFailAsWritten()
    ensures var c1 := Memoize(MayFailDefaultSite(), map[], Mono, 2);
      var c2 := Memoize(MayFailDefaultSite(), c1.registry, Mono, 2);
      && c1.Returned? && c1.value == Err(()) && c1.computed
      && Lookup(c1.registry[Mono].store, 2) == Some(Err(()))
      && c2.Returned? && c2.value == Err(()) && !c2.computed
  {
  }

  /**
   `conditional_caching` as evidently intended: `may_fail` memoized on `input`
   over the `Ok`-only store, that is with `store_type` set to the test's
   conditional store.
   */
  function MayFailSite()
    : CallSite<ConditionalStore.OkOnlyStore<nat, nat, ()>, nat, nat, Result<nat, ()>>
  {
    CallSite(ConditionalStore.Ops(), (input: nat) => input, ConditionalStore.MayFail, () => ConditionalStore.Default())
  }

  /**
   Over the `Ok`-only store, `may_fail(2)` returns `Err(())` and leaves key 2
   uncached, so a second `may_fail(2)` runs the body again; `may_fail(3)`
   returns `Ok(1)` and caches it under key 3.
   */
  lemma MayFailScenario()
    ensures var c1 := Memoize(MayFailSite(), map[], Mono, 2);
      var c2 := Memoize(MayFailSite(), c1.registry, Mono, 3);
      var again := Memoize(MayFailSite(), c1.registry, Mono, 2);
      && c1.Returned? && c1.value == Err(())
      && ConditionalStore.OkGet(c1.registry[Mono].store, 2) == None
      && again.Returned? && again.value == Err(()) && again.computed
      && c2.Returned? && c2.value == Ok(1)
      && ConditionalStore.OkGet(c2.registry[Mono].store, 3) == Some(Ok(1))
      && ConditionalStore.OkGet(c2.registry[Mono].store, 2) == None
  {
  }

  /**
   The intended `conditional_caching` over any run of calls: every call
   returns what `may_fail` computes, and every call with an even input runs
   the body, since its failures are never stored.
   */
  lemma MayFailRun(calls: seq<Invocation<Mono, nat>>)
    ensures var outs := Replay(MayFailSite(), map[], calls).0;
      && (forall j :: 0 <= j < |calls| ==> outs[j].value == ConditionalStore.MayFail(calls[j].args))
      && (forall j :: 0 <= j < |calls| && calls[j].args % 2 == 0 ==> outs[j].computed)
  {
    var site := MayFailSite();
    var outs := Replay(site, map[], calls).0;
    assert Coherent<Mono, ConditionalStore.OkOnlyStore<nat, nat, ()>, nat, nat, Result<nat, ()>>(site, map[]);
    ReplayTransparent(site, map[], calls);
    forall k: nat | k % 2 == 0
      ensures forall j :: 0 <= j < |calls| && calls[j].args == k ==> outs[j].computed
    {
      ConditionalStore.RefusedKeyStaysUncached(site, map[], calls, Mono, k);
      forall j | 0 <= j < |calls| && calls[j].args == k ensures outs[j].computed {
        assert calls[j].tag == Mono;
        forall i | 0 <= i < j && calls[i].tag == Mono && site.keyOf(calls[i].args) == k
          ensures outs[i].value.Err?
        {
        }
      }
    }
  }

  /** The `sanity` call site meets the hypotheses of transparency: a replace-or-add store, a body fixed by the key, an empty store to start from. */
  lemma SanitySiteIsCoherent()
    ensures ReplaceOrAdd(SanitySite().store) && AdmitsOrIgnores(SanitySite().store)
    ensures KeyDetermined(SanitySite())
    ensures Coherent<Mono, MapStore<nat, nat>, (bool, nat), nat, nat>(SanitySite(), map[])
  {
  }

  /**
   `sanity` over any run of calls: every call returns `b + 4`, and a call whose
   `b` an earlier call already had is served from the store.
   */
  lemma SanityRun(calls: seq<Invocation<Mono, (bool, nat)>>)
    ensures var outs := Replay(SanitySite(), map[], calls).0;
      && (forall j :: 0 <= j < |calls| ==> outs[j].value == calls[j].args.1 + 4)
      && (forall i, j :: 0 <= i < j < |calls| && calls[i].args.1 == calls[j].args.1 ==> !outs[j].computed)
  {
    var site := SanitySite();
    SanitySiteIsCoherent();
    var outs := Replay(site, map[], calls).0;
    ReplayTransparent(site, map[], calls);
    ReplayRepeatHits(site, map[], calls);
    forall j | 0 <= j < |calls| ensures outs[j].value == calls[j].args.1 + 4 {
      assert site.body(calls[j].args) == calls[j].args.1 + 4;
    }
    forall i, j | 0 <= i < j < |calls| && calls[i].args.1 == calls[j].args.1 ensures !outs[j].computed {
      assert calls[i].tag == Mono == calls[j].tag;
      assert site.keyOf(calls[i].args) == site.keyOf(calls[j].args);
    }
  }
}
