/**
 The `MemoizationStore<K, Q, R>` contract of src/lib.rs and its two baseline
 backends, `HashMap<K, R>` and `BTreeMap<K, R>`.

 Both backends delegate to a std map, so both are modelled by one finite map
 `K -> R`; the `Backend` tag records which one a store is. A query `Q` is a
 borrowed view of a key: `borrow: K -> Q` stands for `K: Borrow<Q>`, whose
 contract (equal borrows iff equal keys) makes `borrow` injective.
 */
module MemoStore {
  import opened Wrappers

  /** `K: Borrow<Q>`: two keys borrow to the same query only when they are equal. */
  ghost predicate IsBorrow<K(!new), Q>(borrow: K -> Q) {
    forall a, b :: borrow(a) == borrow(b) ==> a == b
  }

  datatype Backend = HashMapBackend | BTreeMapBackend

  /** A baseline store: the std map it delegates to, and which std map that is. */
  datatype MapStore<K, R> = MapStore(backend: Backend, entries: map<K, R>)

  function Empty<K(!new), R>(backend: Backend): (s: MapStore<K, R>)
    ensures s.backend == backend
    ensures forall k :: Lookup(s, k) == None
  {
    MapStore(backend, map[])
  }

  /** Lookup by an owned key (the case `Q = K`). */
  function Lookup<K, R>(s: MapStore<K, R>, key: K): Option<R> {
    if key in s.entries then Some(s.entries[key]) else None
  }

  /** `get(&Q)`: the value of the stored key whose borrowed view is `query`, if any. */
  function Get<K(!new), Q(==), R>(s: MapStore<K, R>, borrow: K -> Q, query: Q): (r: Option<R>)
    requires IsBorrow(borrow)
    ensures r.Some? <==> exists k :: k in s.entries && borrow(k) == query
    ensures forall k :: k in s.entries && borrow(k) == query ==> r == Some(s.entries[k])
  {
    if exists k :: k in s.entries && borrow(k) == query then
      var k :| k in s.entries && borrow(k) == query;
      Some(s.entries[k])
    else
      None
  }

  /** `insert(key, value)`: replace-or-add, on either backend. */
  function Insert<K(!new), R>(s: MapStore<K, R>, key: K, value: R): (s': MapStore<K, R>)
    ensures s'.backend == s.backend
    ensures Lookup(s', key) == Some(value)
    ensures forall k :: k != key ==> Lookup(s', k) == Lookup(s, k)
    ensures s'.entries.Keys == s.entries.Keys + {key}
  {
    MapStore(s.backend, s.entries[key := value])
  }

  /** `get` through a borrowed view agrees with lookup by the owned key it borrows from. */
  lemma BorrowedQueryAgrees<K(!new), Q, R>(s: MapStore<K, R>, borrow: K -> Q, key: K)
    requires IsBorrow(borrow)
    ensures Get(s, borrow, borrow(key)) == Lookup(s, key)
  {
  }

  /** After `insert(k, v)`, `get(borrow(k))` hits with `v`. */
  lemma GetAfterInsert<K(!new), Q, R>(s: MapStore<K, R>, borrow: K -> Q, key: K, value: R)
    requires IsBorrow(borrow)
    ensures Get(Insert(s, key, value), borrow, borrow(key)) == Some(value)
  {
  }

  /** `insert(k, v)` leaves `get` unchanged for every query other than `borrow(k)`. */
  lemma InsertFrame<K(!new), Q, R>(s: MapStore<K, R>, borrow: K -> Q, key: K, value: R, query: Q)
    requires IsBorrow(borrow)
    requires query != borrow(key)
    ensures Get(Insert(s, key, value), borrow, query) == Get(s, borrow, query)
  {
  }

  /** Inserting an existing key supersedes its old value: the earlier write leaves no trace. */
  lemma LastWriteWins<K(!new), R>(s: MapStore<K, R>, key: K, first: R, second: R)
    ensures Insert(Insert(s, key, first), key, second) == Insert(s, key, second)
    ensures Lookup(Insert(Insert(s, key, first), key, second), key) == Some(second)
  {
  }

  /** An operation against a store: `insert(key, value)` or `get(&query)`. */
  datatype Op<K, Q, R> = InsertOp(key: K, value: R) | GetOp(query: Q)

  ghost predicate Writes<K, Q, R>(op: Op<K, Q, R>, key: K) {
    op.InsertOp? && op.key == key
  }

  function CountGets<K, Q, R>(ops: seq<Op<K, Q, R>>): nat {
    if |ops| == 0 then 0 else (if ops[0].GetOp? then 1 else 0) + CountGets(ops[1..])
  }

  /** Applies `ops` in order; yields the final store and what each `get` returned, in order. */
  function Run<K(!new), Q(==), R>(s: MapStore<K, R>, borrow: K -> Q, ops: seq<Op<K, Q, R>>)
    : (r: (MapStore<K, R>, seq<Option<R>>))
    requires IsBorrow(borrow)
    ensures r.0.backend == s.backend
    ensures |r.1| == CountGets(ops)
    decreases |ops|
  {
    if |ops| == 0 then (s, [])
    else match ops[0]
      case InsertOp(k, v) => Run(Insert(s, k, v), borrow, ops[1..])
      case GetOp(q) =>
        var rest := Run(s, borrow, ops[1..]);
        (rest.0, [Get(s, borrow, q)] + rest.1)
  }

  /**
   The same operations on stores holding the same entries observe the same
   `get` results. No operation reads `backend`, so this records that the
   backend tag plays no part in any result.
   */
  lemma {:induction false} SameEntriesSameRun<K(!new), Q, R>(
    s1: MapStore<K, R>, s2: MapStore<K, R>, borrow: K -> Q, ops: seq<Op<K, Q, R>>)
    requires IsBorrow(borrow)
    requires s1.entries == s2.entries
    ensures Run(s1, borrow, ops).1 == Run(s2, borrow, ops).1
    ensures Run(s1, borrow, ops).0.entries == Run(s2, borrow, ops).0.entries
    decreases |ops|
  {
    if |ops| > 0 {
      match ops[0]
      case InsertOp(k, v) =>
        SameEntriesSameRun(Insert(s1, k, v), Insert(s2, k, v), borrow, ops[1..]);
      case GetOp(q) =>
        SameEntriesSameRun(s1, s2, borrow, ops[1..]);
    }
  }

  /**
   For any sequence of operations the `HashMap` and `BTreeMap` backends give
   identical `get` results. Both delegate to map insert/get, which is why the
   model gives them one representation; hashing and ordering are not modelled,
   so this is a consequence of that modelling decision rather than a fact
   about the two std implementations.
   */
  lemma BackendsAgree<K(!new), Q, R>(entries: map<K, R>, borrow: K -> Q, ops: seq<Op<K, Q, R>>)
    requires IsBorrow(borrow)
    ensures Run(MapStore(HashMapBackend, entries), borrow, ops).1
         == Run(MapStore(BTreeMapBackend, entries), borrow, ops).1
  {
    SameEntriesSameRun(MapStore(HashMapBackend, entries), MapStore(BTreeMapBackend, entries), borrow, ops);
  }

  function InsertsOnly<K, Q, R>(ops: seq<Op<K, Q, R>>): (r: seq<Op<K, Q, R>>)
    ensures forall i :: 0 <= i < |r| ==> r[i].InsertOp?
  {
    if |ops| == 0 then []
    else if ops[0].InsertOp? then [ops[0]] + InsertsOnly(ops[1..])
    else InsertsOnly(ops[1..])
  }

  /**
   `get` takes `&self`: dropping every `get` from a run leaves the final store
   the same. In the model `get` is a function that returns no new store, so
   this only confirms that `Run` threads the store past each `get` untouched.
   */
  lemma {:induction false} GetsDoNotMutate<K(!new), Q, R>(
    s: MapStore<K, R>, borrow: K -> Q, ops: seq<Op<K, Q, R>>)
    requires IsBorrow(borrow)
    ensures Run(s, borrow, ops).0 == Run(s, borrow, InsertsOnly(ops)).0
    decreases |ops|
  {
    if |ops| > 0 {
      match ops[0]
      case InsertOp(k, v) =>
        GetsDoNotMutate(Insert(s, k, v), borrow, ops[1..]);
        assert InsertsOnly(ops) == [ops[0]] + InsertsOnly(ops[1..]);
        assert ([ops[0]] + InsertsOnly(ops[1..]))[1..] == InsertsOnly(ops[1..]);
      case GetOp(q) =>
        GetsDoNotMutate(s, borrow, ops[1..]);
    }
  }

  /** After a run, a key holds the value of the last `insert` of that key. */
  lemma {:induction false} RunLastWriteWins<K(!new), Q, R>(
    s: MapStore<K, R>, borrow: K -> Q, ops: seq<Op<K, Q, R>>, key: K, i: nat)
    requires IsBorrow(borrow)
    requires i < |ops| && Writes(ops[i], key)
    requires forall j :: i < j < |ops| ==> !Writes(ops[j], key)
    ensures Lookup(Run(s, borrow, ops).0, key) == Some(ops[i].value)
    decreases |ops|
  {
    if i == 0 {
      RunUntouched(Insert(s, key, ops[0].value), borrow, ops[1..], key);
    } else {
      match ops[0]
      case InsertOp(k, v) =>
        RunLastWriteWins(Insert(s, k, v), borrow, ops[1..], key, i - 1);
      case GetOp(q) =>
        RunLastWriteWins(s, borrow, ops[1..], key, i - 1);
    }
  }

  /** A key no operation writes keeps the value it had before the run. */
  lemma {:induction false} RunUntouched<K(!new), Q, R>(
    s: MapStore<K, R>, borrow: K -> Q, ops: seq<Op<K, Q, R>>, key: K)
    requires IsBorrow(borrow)
    requires forall j :: 0 <= j < |ops| ==> !Writes(ops[j], key)
    ensures Lookup(Run(s, borrow, ops).0, key) == Lookup(s, key)
    decreases |ops|
  {
    if |ops| > 0 {
      assert !Writes(ops[0], key);
      match ops[0]
      case InsertOp(k, v) =>
        RunUntouched(Insert(s, k, v), borrow, ops[1..], key);
      case GetOp(q) =>
        RunUntouched(s, borrow, ops[1..], key);
    }
  }

  /** `get` on the borrowed view of a key that was never inserted misses. */
  lemma NeverInsertedMisses<K(!new), Q, R>(
    backend: Backend, borrow: K -> Q, ops: seq<Op<K, Q, R>>, key: K)
    requires IsBorrow(borrow)
    requires forall j :: 0 <= j < |ops| ==> !Writes(ops[j], key)
    ensures Get(Run(Empty(backend), borrow, ops).0, borrow, borrow(key)) == None
  {
    RunUntouched(Empty(backend), borrow, ops, key);
    BorrowedQueryAgrees(Run(Empty(backend), borrow, ops).0, borrow, key);
  }

  /**
   The trait as the lookup/compute/insert protocol uses it: `get` by an owned
   key (the two-parameter `MemoizationStore<K, R>` of the tests, i.e. `Q = K`)
   and `insert`, over some store type `S`.
   */
  datatype StoreOps<!S, !K, !R> = StoreOps(get: (S, K) -> Option<R>, insert: (S, K, R) -> S)

  /** Replace-or-add semantics: after `insert(k, v)`, `k` hits with `v` and every other key is as before. */
  ghost predicate ReplaceOrAdd<S(!new), K(!new), R(!new)>(ops: StoreOps<S, K, R>) {
    && (forall s, k, v :: ops.get(ops.insert(s, k, v), k) == Some(v))
    && (forall s, k, v, k' :: k' != k ==> ops.get(ops.insert(s, k, v), k') == ops.get(s, k'))
  }

  /**
   Admit-or-ignore semantics, the weaker contract every store in this model
   keeps: `insert(k, v)` either makes `k` hit with `v` or leaves `k` as it was,
   and never changes another key.
   */
  ghost predicate AdmitsOrIgnores<S(!new), K(!new), R(!new)>(ops: StoreOps<S, K, R>) {
    && (forall s, k, v :: ops.get(ops.insert(s, k, v), k) == Some(v) || ops.get(ops.insert(s, k, v), k) == ops.get(s, k))
    && (forall s, k, v, k' :: k' != k ==> ops.get(ops.insert(s, k, v), k') == ops.get(s, k'))
  }

  /** A replace-or-add store admits every insert. */
  lemma ReplaceOrAddAdmits<S(!new), K(!new), R(!new)>(ops: StoreOps<S, K, R>)
    requires ReplaceOrAdd(ops)
    ensures AdmitsOrIgnores(ops)
  {
  }

  /** Either baseline backend, seen through the protocol's interface. */
  function MapStoreOps<K(!new), R(!new)>(): (ops: StoreOps<MapStore<K, R>, K, R>)
    ensures ReplaceOrAdd(ops) && AdmitsOrIgnores(ops)
    ensures forall s: MapStore<K, R>, k :: ops.get(s, k).Some? <==> k in s.entries
  {
    StoreOps((s, k) => Lookup(s, k), (s, k, v) => Insert(s, k, v))
  }
}
