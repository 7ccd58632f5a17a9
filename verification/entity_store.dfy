/** The bookkeeping shared by the task hook and the category hook: an
    ordered list of records keyed by id, plus a `loading` flag. Every
    mutation is applied only after the remote call succeeds
    (confirm-then-apply); the server's answer is the `Outcome` argument. */
module EntityStore {
  import opened Outcomes
  import opened Sequences
  import opened Records

  datatype Store<T> = Store(items: seq<T>, loading: bool)

  /** The store after a mutating call, and what the call resolves to for
      its caller (the record, or the rethrown error). */
  datatype Reply<T, V> = Reply(store: Store<T>, result: Outcome<V>)

  /** `xs` with the elements whose key is `id` dropped. */
  function Without<T(!new)>(xs: seq<T>, key: T -> Id, id: Id): seq<T> {
    Filter(xs, x => key(x) != id)
  }

  /** `xs` with the elements whose key is `id` replaced by `y`. */
  function Replacing<T>(xs: seq<T>, key: T -> Id, id: Id, y: T): seq<T> {
    ReplaceWhere(xs, x => key(x) == id, y)
  }

  /** Some element of `xs` has key `id`. */
  predicate HasKey<T>(xs: seq<T>, key: T -> Id, id: Id) {
    exists k :: 0 <= k < |xs| && key(xs[k]) == id
  }

  /** The state on mount: no records, and a fetch under way. */
  function Init<T>(): (s: Store<T>)
    ensures s.items == [] && s.loading
  {
    Store([], true)
  }

  /** A fetch has been issued: `loading` is on, the records are kept. */
  function BeginFetch<T>(s: Store<T>): (r: Store<T>)
    ensures r.loading && r.items == s.items
  {
    s.(loading := true)
  }

  /** A fetch has settled: success replaces the list, failure is swallowed
      (reported to the user only), and `loading` goes off either way. */
  function SettleFetch<T>(s: Store<T>, outcome: Outcome<seq<T>>): (r: Store<T>)
    ensures !r.loading
    ensures outcome.Ok? ==> r.items == outcome.value
    ensures outcome.Err? ==> r.items == s.items
  {
    match outcome
    case Ok(xs) => Store(xs, false)
    case Err(_) => s.(loading := false)
  }

  /** A whole fetch call, from issue to settlement. */
  function Fetch<T>(s: Store<T>, outcome: Outcome<seq<T>>): (r: Store<T>)
    ensures !r.loading
    ensures outcome.Ok? ==> r.items == outcome.value
    ensures outcome.Err? ==> r.items == s.items
  {
    SettleFetch(BeginFetch(s), outcome)
  }

  /** Create: the server's record goes to the front and is returned. */
  function Create<T>(s: Store<T>, outcome: Outcome<T>): (r: Reply<T, T>)
    ensures r.result == outcome
    ensures r.store.loading == s.loading
    ensures outcome.Ok? ==> r.store.items == [outcome.value] + s.items
    ensures outcome.Ok? ==> |r.store.items| == |s.items| + 1
    ensures outcome.Err? ==> r.store == s
  {
    match outcome
    case Ok(rec) => Reply(s.(items := [rec] + s.items), outcome)
    case Err(_) => Reply(s, outcome)
  }

  /** Update: every record with key `id` becomes the server's record; the
      others, the length and the order stay. */
  function Update<T>(s: Store<T>, key: T -> Id, id: Id, outcome: Outcome<T>): (r: Reply<T, T>)
    ensures r.result == outcome
    ensures r.store.loading == s.loading
    ensures outcome.Ok? ==> |r.store.items| == |s.items|
    ensures outcome.Ok? ==> forall i :: 0 <= i < |s.items| ==>
      r.store.items[i] == if key(s.items[i]) == id then outcome.value else s.items[i]
    ensures outcome.Err? ==> r.store == s
  {
    match outcome
    case Ok(rec) => Reply(s.(items := Replacing(s.items, key, id, rec)), outcome)
    case Err(_) => Reply(s, outcome)
  }

  /** Delete: the records with key `id` leave; every other record stays,
      as often as before. */
  function Delete<T(!new)>(s: Store<T>, key: T -> Id, id: Id, outcome: Outcome<()>): (r: Reply<T, ()>)
    ensures r.result == outcome
    ensures r.store.loading == s.loading
    ensures outcome.Ok? ==> forall x :: x in r.store.items <==> x in s.items && key(x) != id
    ensures outcome.Ok? ==>
      forall x :: multiset(r.store.items)[x] == (if key(x) == id then 0 else multiset(s.items)[x])
    ensures outcome.Ok? ==> !HasKey(r.store.items, key, id)
    ensures outcome.Err? ==> r.store == s
  {
    match outcome
    case Ok(_) =>
      var rest := Without(s.items, key, id);
      assert forall k :: 0 <= k < |rest| ==> rest[k] in rest;
      Reply(s.(items := rest), outcome)
    case Err(_) => Reply(s, outcome)
  }

  /** Deleting keeps the survivors in their original order: it
      distributes over concatenation. */
  lemma DeleteKeepsOrder<T(!new)>(a: seq<T>, b: seq<T>, key: T -> Id, id: Id)
    ensures Without(a + b, key, id) == Without(a, key, id) + Without(b, key, id)
  {
    FilterAppend(a, b, x => key(x) != id);
  }

  /** Deleting an id no record carries changes nothing. */
  lemma DeleteAbsent<T(!new)>(s: Store<T>, key: T -> Id, id: Id)
    requires !HasKey(s.items, key, id)
    ensures Delete(s, key, id, Ok(())).store == s
  {
    FilterKeepsAll(s.items, x => key(x) != id);
  }

  /** Deleting the same id twice is deleting it once. */
  lemma DeleteIdempotent<T(!new)>(s: Store<T>, key: T -> Id, id: Id)
    ensures var once := Delete(s, key, id, Ok(())).store;
            Delete(once, key, id, Ok(())).store == once
  {
    DeleteAbsent(Delete(s, key, id, Ok(())).store, key, id);
  }

  /** With distinct keys, dropping the key of the element at `i` removes
      exactly that one element. */
  lemma WithoutRemovesOne<T(!new)>(xs: seq<T>, key: T -> Id, i: nat)
    requires DistinctKeys(xs, key)
    requires i < |xs|
    ensures Without(xs, key, key(xs[i])) == xs[..i] + xs[i + 1..]
  {
    var id := key(xs[i]);
    var keep := x => key(x) != id;
    var head, tail := xs[..i], xs[i + 1..];
    assert xs == head + ([xs[i]] + tail);
    forall k | 0 <= k < |head| ensures keep(head[k]) {
      assert head[k] == xs[k];
    }
    forall k | 0 <= k < |tail| ensures keep(tail[k]) {
      assert tail[k] == xs[i + 1 + k];
    }
    calc {
      Filter(xs, keep);
      { FilterAppend(head, [xs[i]] + tail, keep); }
      Filter(head, keep) + Filter([xs[i]] + tail, keep);
      { FilterKeepsAll(head, keep); }
      head + Filter([xs[i]] + tail, keep);
      { assert ([xs[i]] + tail)[1..] == tail; }
      head + Filter(tail, keep);
      { FilterKeepsAll(tail, keep); }
      head + tail;
    }
  }

  /** With distinct keys, a successful delete of the key of the record at
      `i` removes exactly that one record. */
  lemma DeleteRemovesOne<T(!new)>(s: Store<T>, key: T -> Id, i: nat)
    requires DistinctKeys(s.items, key)
    requires i < |s.items|
    ensures Delete(s, key, key(s.items[i]), Ok(())).store.items == s.items[..i] + s.items[i + 1..]
  {
    WithoutRemovesOne(s.items, key, i);
  }

  /** Deleting keeps keys distinct. */
  lemma DeleteKeepsDistinct<T(!new)>(s: Store<T>, key: T -> Id, id: Id)
    requires DistinctKeys(s.items, key)
    ensures DistinctKeys(Delete(s, key, id, Ok(())).store.items, key)
  {
    FilterKeepsDistinct(s.items, x => key(x) != id, key);
  }

  /** Updating an id no record carries changes nothing. */
  lemma UpdateAbsent<T>(s: Store<T>, key: T -> Id, id: Id, rec: T)
    requires !HasKey(s.items, key, id)
    ensures Update(s, key, id, Ok(rec)).store == s
  {
    assert Update(s, key, id, Ok(rec)).store.items == s.items;
  }

  /** Applying the same successful update twice is applying it once. */
  lemma UpdateIdempotent<T>(s: Store<T>, key: T -> Id, id: Id, rec: T)
    ensures var once := Update(s, key, id, Ok(rec)).store;
            Update(once, key, id, Ok(rec)).store == once
  {
    var once := Update(s, key, id, Ok(rec)).store;
    assert Update(once, key, id, Ok(rec)).store.items == once.items;
  }

  /** An update whose record keeps its id leaves every position's key,
      and so the distinctness of keys, as it was. */
  lemma UpdateKeepsKeys<T>(s: Store<T>, key: T -> Id, id: Id, rec: T)
    requires key(rec) == id
    ensures var after := Update(s, key, id, Ok(rec)).store.items;
            forall i :: 0 <= i < |s.items| ==> key(after[i]) == key(s.items[i])
    ensures DistinctKeys(s.items, key) ==> DistinctKeys(Update(s, key, id, Ok(rec)).store.items, key)
  {
    ReplaceKeepsKeys(s.items, key, id, rec);
  }

  /** A fresh record created keeps keys distinct. */
  lemma CreateKeepsDistinct<T>(s: Store<T>, key: T -> Id, rec: T)
    requires DistinctKeys(s.items, key)
    requires !HasKey(s.items, key, key(rec))
    ensures DistinctKeys(Create(s, Ok(rec)).store.items, key)
  {
    var after := Create(s, Ok(rec)).store.items;
    forall i, j | 0 <= i < j < |after| ensures key(after[i]) != key(after[j]) {
      assert after[j] == s.items[j - 1];
      if i > 0 {
        assert after[i] == s.items[i - 1];
      }
    }
  }

  /** Deleting a freshly created record undoes the create. */
  lemma CreateThenDelete<T(!new)>(s: Store<T>, key: T -> Id, rec: T)
    requires !HasKey(s.items, key, key(rec))
    ensures Delete(Create(s, Ok(rec)).store, key, key(rec), Ok(())).store == s
  {
    var keep := x => key(x) != key(rec);
    FilterAppend([rec], s.items, keep);
    FilterKeepsAll(s.items, keep);
  }

  /** One settled call on a store, with the server's answer. */
  datatype Op<T> =
    | FetchOp(listed: Outcome<seq<T>>)
    | CreateOp(created: Outcome<T>)
    | UpdateOp(id: Id, updated: Outcome<T>)
    | DeleteOp(id: Id, deleted: Outcome<()>)

  function Step<T(!new)>(s: Store<T>, key: T -> Id, op: Op<T>): Store<T> {
    match op
    case FetchOp(o) => Fetch(s, o)
    case CreateOp(o) => Create(s, o).store
    case UpdateOp(id, o) => Update(s, key, id, o).store
    case DeleteOp(id, o) => Delete(s, key, id, o).store
  }

  /** The calls of `ops` settled one after another, each atomically. */
  function Run<T(!new)>(s: Store<T>, key: T -> Id, ops: seq<Op<T>>): Store<T>
    decreases |ops|
  {
    if ops == [] then s else Run(Step(s, key, ops[0]), key, ops[1..])
  }

  /** The server respects identities on this call: a listing has distinct
      ids, a created record gets an id not yet held, and an updated record
      keeps the id it was updated under. */
  predicate KeepsIdentity<T>(s: Store<T>, key: T -> Id, op: Op<T>) {
    match op
    case FetchOp(o) => o.Ok? ==> DistinctKeys(o.value, key)
    case CreateOp(o) => o.Ok? ==> !HasKey(s.items, key, key(o.value))
    case UpdateOp(id, o) => o.Ok? ==> key(o.value) == id
    case DeleteOp(_, _) => true
  }

  /** The server respects identities on every call of `ops`. */
  predicate AlwaysKeepsIdentity<T(!new)>(s: Store<T>, key: T -> Id, ops: seq<Op<T>>)
    decreases |ops|
  {
    ops == [] || (KeepsIdentity(s, key, ops[0]) && AlwaysKeepsIdentity(Step(s, key, ops[0]), key, ops[1..]))
  }

  /** One call keeps ids distinct when the server respects identities. */
  lemma StepKeepsDistinct<T(!new)>(s: Store<T>, key: T -> Id, op: Op<T>)
    requires DistinctKeys(s.items, key)
    requires KeepsIdentity(s, key, op)
    ensures DistinctKeys(Step(s, key, op).items, key)
  {
    match op
    case FetchOp(o) =>
    case CreateOp(o) =>
      if o.Ok? { CreateKeepsDistinct(s, key, o.value); }
    case UpdateOp(id, o) =>
      if o.Ok? { UpdateKeepsKeys(s, key, id, o.value); }
    case DeleteOp(id, o) =>
      if o.Ok? { DeleteKeepsDistinct(s, key, id); }
  }

  /** No sequence of calls ever leaves two records with the same id, as
      long as the server respects identities. */
  lemma {:induction false} RunKeepsDistinct<T(!new)>(s: Store<T>, key: T -> Id, ops: seq<Op<T>>)
    requires DistinctKeys(s.items, key)
    requires AlwaysKeepsIdentity(s, key, ops)
    ensures DistinctKeys(Run(s, key, ops).items, key)
    decreases |ops|
  {
    if ops != [] {
      StepKeepsDistinct(s, key, ops[0]);
      RunKeepsDistinct(Step(s, key, ops[0]), key, ops[1..]);
    }
  }
}
