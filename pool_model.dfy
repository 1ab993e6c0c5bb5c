/**
 * The bookkeeping of AbstractPool as pure values: the universe of instances the
 * pool created (`pool`), the instances checked out (`allocatedObjects`) and the FIFO
 * queue of free instances (`availableObjects`). Each operation of the engine is a
 * function from the old state to a result; the class in module UPool is proved
 * against these functions, and the lemmas below state what the engine promises.
 */
module PoolModel {

  /** The exceptions the engine raises. */
  datatype PoolError =
    | PoolDestroyed   // InvalidOperationException: the pool has been destroyed
    | ForeignObject   // InvalidOperationException: the object did not originate from this pool
    | NullReference   // NullReferenceException: a released collection or owner was dereferenced

  datatype Result<T> = Ok(value: T) | Err(error: PoolError)

  datatype Outcome = Pass | Fail(error: PoolError)

  /** The four callbacks of the poolable contract. */
  datatype Callback = Init | OnAllocate | OnDeallocate | Destroy

  /** One callback fired on one instance. */
  datatype Event<T> = Event(callback: Callback, target: T)

  /** A live pool, or one whose collections have been released by Destroy. */
  datatype State<T> =
    | Live(pool: set<T>, allocatedObjects: set<T>, availableObjects: seq<T>)
    | Destroyed

  function Elements<T>(q: seq<T>): set<T>
  {
    set x | x in q
  }

  predicate Distinct<T(==)>(q: seq<T>)
  {
    forall i, j :: 0 <= i < j < |q| ==> q[i] != q[j]
  }

  /** The pool is the disjoint union of the allocated set and the queue, which holds no duplicates. */
  predicate Inv<T>(s: State<T>)
  {
    s.Live? ==>
      Distinct(s.availableObjects) &&
      s.allocatedObjects !! Elements(s.availableObjects) &&
      s.pool == s.allocatedObjects + Elements(s.availableObjects)
  }

  /** The events of one callback fired once on each element of `q`, in order. */
  function Fire<T>(k: Callback, q: seq<T>): seq<Event<T>>
  {
    seq(|q|, i requires 0 <= i < |q| => Event(k, q[i]))
  }

  lemma FireSnoc<T>(k: Callback, q: seq<T>, x: T)
    ensures Fire(k, q + [x]) == Fire(k, q) + [Event(k, x)]
  {
  }

  /** A log that recorded the callback on `q` and then on `x` recorded it on `q + [x]`. */
  lemma FireExtend<T>(k: Callback, before: seq<Event<T>>, after: seq<Event<T>>, q: seq<T>, x: T)
    requires after == before + Fire(k, q) + [Event(k, x)]
    ensures after == before + Fire(k, q + [x])
  {
    FireSnoc(k, q, x);
  }

  /** The elements of `q + [x]` are those of `q` and `x`. */
  lemma ElementsSnoc<T>(q: seq<T>, x: T)
    ensures Elements(q + [x]) == Elements(q) + {x}
  {
    forall y | y in Elements(q + [x])
      ensures y in Elements(q) + {x}
    {
      var i :| 0 <= i < |q + [x]| && (q + [x])[i] == y;
      if i < |q| {
        assert q[i] == y;
      }
    }
  }

  /** Appending a new element keeps a sequence free of duplicates. */
  lemma DistinctSnoc<T>(q: seq<T>, x: T)
    requires Distinct(q) && x !in Elements(q)
    ensures Distinct(q + [x]) && Elements(q + [x]) == Elements(q) + {x}
  {
    ElementsSnoc(q, x);
    forall i, j | 0 <= i < j < |q + [x]|
      ensures (q + [x])[i] != (q + [x])[j]
    {
      if j == |q| {
        assert (q + [x])[i] == q[i] && q[i] in Elements(q);
      }
    }
  }

  /**
   * In a queue without duplicates, the head of what is left is none of what
   * was already taken, and moving it across keeps the split.
   */
  lemma HeadNotTaken<T>(q: seq<T>, taken: seq<T>, rest: seq<T>)
    requires Distinct(q) && q == taken + rest && rest != []
    ensures rest[0] !in Elements(taken)
    ensures q == (taken + [rest[0]]) + rest[1..]
  {
    forall j | 0 <= j < |taken|
      ensures taken[j] != rest[0]
    {
      assert taken[j] == q[j] && rest[0] == q[|taken|];
    }
    assert rest == [rest[0]] + rest[1..];
  }

  /** The events of one callback fired once on each element of a set, in no particular order. */
  function FireAll<T>(k: Callback, items: set<T>): multiset<Event<T>>
  {
    multiset(set x | x in items :: Event(k, x))
  }

  lemma FireAllAdd<T>(k: Callback, items: set<T>, x: T)
    requires x !in items
    ensures FireAll(k, items + {x}) == FireAll(k, items) + multiset{Event(k, x)}
  {
    var a := set y | y in items :: Event(k, y);
    var b := set y | y in items + {x} :: Event(k, y);
    assert b == a + {Event(k, x)};
    assert Event(k, x) !in a;
  }

  lemma FireAllEmpty<T>(k: Callback)
    ensures FireAll<T>(k, {}) == multiset{}
  {
    var a := set y: T | y in {} :: Event(k, y);
    assert a == {};
  }

  /**
   * A log that fires a callback along a duplicate-free order of a set holds
   * each of the set's events exactly once: as a multiset it does not depend on
   * the order in which the set was walked.
   */
  lemma {:induction false} FireIsFireAll<T>(k: Callback, q: seq<T>)
    requires Distinct(q)
    ensures multiset(Fire(k, q)) == FireAll(k, Elements(q))
    decreases |q|
  {
    if q == [] {
      assert Elements(q) == {};
      FireAllEmpty<T>(k);
    } else {
      var p, x := q[..|q| - 1], q[|q| - 1];
      assert q == p + [x];
      assert Distinct(p);
      assert x !in Elements(p);
      assert Elements(q) == Elements(p) + {x};
      FireIsFireAll(k, p);
      FireSnoc(k, p, x);
      FireAllAdd(k, Elements(p), x);
    }
  }

  /** Two walks over the same set fire the same events, possibly in another order. */
  lemma FireOrderIrrelevant<T>(k: Callback, q1: seq<T>, q2: seq<T>)
    requires Distinct(q1) && Distinct(q2) && Elements(q1) == Elements(q2)
    ensures multiset(Fire(k, q1)) == multiset(Fire(k, q2))
  {
    FireIsFireAll(k, q1);
    FireIsFireAll(k, q2);
  }

  // ----- accessors -----

  /** `Size`: the number of instances the pool owns; reading it after Destroy dereferences null. */
  function Size<T>(s: State<T>): (r: Result<nat>)
    ensures r.Ok? <==> s.Live?
    ensures r.Err? ==> r.error == NullReference
    ensures r.Ok? ==> r.value == |s.pool|
  {
    if s.Destroyed? then Err(NullReference) else Ok(|s.pool|)
  }

  /** `AvailableItems`: the length of the free queue. */
  function AvailableItems<T>(s: State<T>): (r: Result<nat>)
    ensures r.Ok? <==> s.Live?
    ensures r.Err? ==> r.error == NullReference
    ensures r.Ok? ==> r.value == |s.availableObjects|
  {
    if s.Destroyed? then Err(NullReference) else Ok(|s.availableObjects|)
  }

  lemma {:induction false} DistinctCard<T>(q: seq<T>)
    requires Distinct(q)
    ensures |Elements(q)| == |q|
  {
    if q != [] {
      DistinctCard(q[1..]);
      assert Elements(q) == {q[0]} + Elements(q[1..]);
      assert q[0] !in Elements(q[1..]);
    }
  }

  /** The free queue never holds more instances than the pool owns. */
  lemma AvailableWithinSize<T>(s: State<T>)
    requires Inv(s)
    ensures AvailableItems(s).Ok? ==> AvailableItems(s).value <= Size(s).value
  {
    if s.Live? {
      DistinctCard(s.availableObjects);
      assert Elements(s.availableObjects) <= s.pool;
    }
  }

  // ----- CreateNewInstance and InitializePool -----

  /** `CreateNewInstance`: the generator's instance joins the pool and the tail of the queue. */
  function Created<T>(s: State<T>, x: T): (r: State<T>)
    requires s.Live?
    ensures r.Live? && r.pool == s.pool + {x} && r.allocatedObjects == s.allocatedObjects
    ensures r.availableObjects == s.availableObjects + [x]
  {
    Live(s.pool + {x}, s.allocatedObjects, s.availableObjects + [x])
  }

  /** A new instance joins the pool as the last available one and keeps the partition invariant. */
  lemma CreatedKeepsInv<T>(s: State<T>, x: T)
    requires Inv(s) && s.Live? && x !in s.pool
    ensures Inv(Created(s, x))
    ensures Size(Created(s, x)) == Ok(|s.pool| + 1)
    ensures AvailableItems(Created(s, x)) == Ok(|s.availableObjects| + 1)
    ensures Created(s, x).availableObjects[|s.availableObjects|] == x
  {
    DistinctSnoc(s.availableObjects, x);
  }

  /** `InitializePool`: fresh collections, then one CreateNewInstance per generated instance. */
  function Initialized<T>(created: seq<T>): (r: State<T>)
    ensures r.Live? && r.allocatedObjects == {} && r.availableObjects == created
  {
    if created == [] then Live({}, {}, [])
    else
      assert created[..|created| - 1] + [created[|created| - 1]] == created;
      Created(Initialized(created[..|created| - 1]), created[|created| - 1])
  }

  lemma {:induction false} InitializedContents<T>(created: seq<T>)
    ensures Initialized(created) == Live(Elements(created), {}, created)
  {
    if created != [] {
      var n := |created| - 1;
      var prev, x := created[..n], created[n];
      assert prev + [x] == created;
      assert Initialized(prev) == Live(Elements(prev), {}, prev) by {
        InitializedContents(prev);
      }
      assert Elements(prev) + {x} == Elements(created) by {
        ElementsSnoc(prev, x);
      }
      assert Initialized(created) == Created(Initialized(prev), x);
    }
  }

  /**
   * After InitializePool with distinct generated instances, every instance is
   * available, none is allocated, and Size and AvailableItems both equal the
   * number of instances created.
   */
  lemma InitializedShape<T>(created: seq<T>)
    requires Distinct(created)
    ensures Initialized(created) == Live(Elements(created), {}, created)
    ensures Inv(Initialized(created))
    ensures Size(Initialized(created)) == Ok(|created|)
    ensures AvailableItems(Initialized(created)) == Ok(|created|)
  {
    InitializedContents(created);
    DistinctCard(created);
  }

  // ----- Acquire -----

  /** Dequeue the head of the free queue and record it as allocated. */
  function Take<T>(s: State<T>): (r: (State<T>, T))
    requires s.Live? && s.availableObjects != []
    ensures r.0.Live? && r.0.pool == s.pool && r.0.allocatedObjects == s.allocatedObjects + {r.1}
    ensures r.1 == s.availableObjects[0] && r.0.availableObjects == s.availableObjects[1..]
  {
    (Live(s.pool, s.allocatedObjects + {s.availableObjects[0]}, s.availableObjects[1..]), s.availableObjects[0])
  }

  /** Handing out the head of the queue keeps the partition invariant and the pool. */
  lemma TakeKeepsInv<T>(s: State<T>)
    requires Inv(s) && s.Live? && s.availableObjects != []
    ensures Inv(Take(s).0) && Take(s).0.pool == s.pool
    ensures Take(s).1 in Take(s).0.allocatedObjects && Take(s).1 !in Elements(Take(s).0.availableObjects)
  {
    var q := s.availableObjects;
    assert q == [q[0]] + q[1..];
    assert Elements(q) == {q[0]} + Elements(q[1..]);
    assert q[0] !in Elements(q[1..]);
  }

  /**
   * `Acquire`: fails once destroyed; when the queue is empty the generator's
   * instance `created` is added first; then the head of the queue is handed out.
   */
  function Acquire<T>(s: State<T>, created: T): (r: Result<(State<T>, T)>)
    ensures r.Ok? <==> s.Live?
    ensures r.Err? ==> r.error == PoolDestroyed
    ensures r.Ok? ==>
      r.value.1 == (if s.availableObjects == [] then created else s.availableObjects[0]) &&
      r.value.0.Live? && r.value.1 in r.value.0.allocatedObjects &&
      r.value.0.pool == s.pool + (if s.availableObjects == [] then {created} else {})
  {
    if s.Destroyed? then Err(PoolDestroyed)
    else if s.availableObjects == [] then Ok(Take(Created(s, created)))
    else Ok(Take(s))
  }

  /**
   * Acquire grows the pool by exactly one instance when the queue is empty and
   * not at all otherwise; it hands out the head of the queue (or the new
   * instance), which ends up allocated and no longer available, and the rest of
   * the queue keeps its order.
   */
  lemma AcquireSpec<T>(s: State<T>, created: T)
    requires Inv(s) && s.Live?
    requires s.availableObjects == [] ==> created !in s.pool
    ensures Acquire(s, created).Ok?
    ensures var (s', x) := Acquire(s, created).value;
      Inv(s') &&
      |s'.pool| == |s.pool| + (if s.availableObjects == [] then 1 else 0) &&
      x == (if s.availableObjects == [] then created else s.availableObjects[0]) &&
      x in s'.allocatedObjects && x !in Elements(s'.availableObjects) &&
      s'.allocatedObjects == s.allocatedObjects + {x} &&
      s'.availableObjects == (if s.availableObjects == [] then [] else s.availableObjects[1..])
  {
    if s.availableObjects == [] {
      CreatedKeepsInv(s, created);
      TakeKeepsInv(Created(s, created));
    } else {
      TakeKeepsInv(s);
    }
  }

  // ----- Recycle -----

  /**
   * `Recycle`: fails once destroyed, rejects an object the pool did not create,
   * moves an allocated object to the tail of the queue, and ignores an object
   * that is already available.
   */
  function Recycle<T>(s: State<T>, x: T): (r: Result<State<T>>)
    ensures r.Ok? ==> s.Live? && r.value.Live?
  {
    if s.Destroyed? then Err(PoolDestroyed)
    else if x !in s.pool then Err(ForeignObject)
    else if x in s.allocatedObjects then Ok(Live(s.pool, s.allocatedObjects - {x}, s.availableObjects + [x]))
    else Ok(s)
  }

  lemma RecycleSpec<T>(s: State<T>, x: T)
    requires Inv(s)
    ensures Recycle(s, x).Ok? <==> s.Live? && x in s.pool
    ensures s.Live? && x !in s.pool ==> Recycle(s, x) == Err(ForeignObject)
    ensures Recycle(s, x).Ok? ==>
      var s' := Recycle(s, x).value;
      Inv(s') && s'.pool == s.pool && x !in s'.allocatedObjects && x in Elements(s'.availableObjects) &&
      (x in s.allocatedObjects ==> s'.availableObjects == s.availableObjects + [x]) &&
      (x !in s.allocatedObjects ==> s' == s)
  {
    if s.Live? && x in s.allocatedObjects {
      ElementsSnoc(s.availableObjects, x);
    }
  }

  /** A second recycle of the same object changes nothing: no duplicate in the queue. */
  lemma RecycleIdempotent<T>(s: State<T>, x: T)
    requires Inv(s) && Recycle(s, x).Ok?
    ensures Recycle(Recycle(s, x).value, x) == Recycle(s, x)
  {
    RecycleSpec(s, x);
  }

  /** Recycle each object of `xs` in order, stopping at the first failure. */
  function RecycleSeq<T>(s: State<T>, xs: seq<T>): (r: Result<State<T>>)
    ensures s.Destroyed? && xs != [] ==> r == Err(PoolDestroyed)
    ensures r.Ok? && s.Live? ==>
      r.value.Live? && r.value.pool == s.pool && Elements(xs) <= s.pool &&
      r.value.allocatedObjects == s.allocatedObjects - Elements(xs)
    decreases |xs|
  {
    if xs == [] then
      assert Elements(xs) == {};
      Ok(s)
    else
      assert Elements(xs) == {xs[0]} + Elements(xs[1..]);
      match Recycle(s, xs[0])
        case Ok(s1) => RecycleSeq(s1, xs[1..])
        case Err(e) => Err(e)
  }

  /** Recycling distinct allocated objects appends them to the queue in recycle order. */
  lemma {:induction false} RecycleSeqAppends<T>(s: State<T>, xs: seq<T>)
    requires Inv(s) && s.Live?
    requires Distinct(xs) && Elements(xs) <= s.allocatedObjects
    ensures RecycleSeq(s, xs) == Ok(Live(s.pool, s.allocatedObjects - Elements(xs), s.availableObjects + xs))
    ensures Inv(RecycleSeq(s, xs).value)
    decreases |xs|
  {
    if xs != [] {
      var x := xs[0];
      RecycleSpec(s, x);
      var s1 := Recycle(s, x).value;
      assert s1 == Live(s.pool, s.allocatedObjects - {x}, s.availableObjects + [x]);
      assert RecycleSeq(s, xs) == RecycleSeq(s1, xs[1..]);
      assert Elements(xs) == {x} + Elements(xs[1..]);
      assert x !in Elements(xs[1..]);
      RecycleSeqAppends(s1, xs[1..]);
      assert (s.availableObjects + [x]) + xs[1..] == s.availableObjects + xs;
      assert s1.allocatedObjects - Elements(xs[1..]) == s.allocatedObjects - Elements(xs);
    } else {
      assert Elements(xs) == {};
      assert s.allocatedObjects - Elements(xs) == s.allocatedObjects;
      assert s.availableObjects + xs == s.availableObjects;
      assert RecycleSeq(s, xs) == Ok(s);
    }
  }

  /**
   * `RecycleAll`: recycle every object of a snapshot of the allocated set, then
   * clear the allocated set.
   */
  function RecycleAll<T>(s: State<T>, snapshot: seq<T>): (r: Result<State<T>>)
    ensures s.Destroyed? ==> r == Err(PoolDestroyed)
    ensures r.Ok? ==> s.Live? && r.value.Live? && r.value.pool == s.pool && r.value.allocatedObjects == {}
  {
    if s.Destroyed? then Err(PoolDestroyed)
    else match RecycleSeq(s, snapshot)
      case Ok(s1) => Ok(Live(s1.pool, {}, s1.availableObjects))
      case Err(e) => Err(e)
  }

  /**
   * RecycleAll ends with nothing allocated, every instance available and the
   * size unchanged; the snapshot's instances join the tail of the queue.
   */
  lemma RecycleAllSpec<T>(s: State<T>, snapshot: seq<T>)
    requires Inv(s) && s.Live?
    requires Distinct(snapshot) && Elements(snapshot) == s.allocatedObjects
    ensures RecycleAll(s, snapshot) == Ok(Live(s.pool, {}, s.availableObjects + snapshot))
    ensures var s' := RecycleAll(s, snapshot).value;
      Inv(s') && Elements(s'.availableObjects) == s.pool && Size(s') == Size(s) &&
      AvailableItems(s') == Size(s')
  {
    RecycleSeqAppends(s, snapshot);
    var s' := RecycleAll(s, snapshot).value;
    assert Elements(s.availableObjects + snapshot) == Elements(s.availableObjects) + Elements(snapshot);
    DistinctCard(s'.availableObjects);
  }

  // ----- Destroy -----

  /** `Destroy`: fails when already destroyed, otherwise releases the collections. */
  function DestroyPool<T>(s: State<T>, destroyAllocated: bool): (r: Result<State<T>>)
    ensures r.Ok? <==> s.Live?
    ensures r.Ok? ==> r.value.Destroyed?
    ensures r.Err? ==> r.error == PoolDestroyed
  {
    if s.Destroyed? then Err(PoolDestroyed) else Ok(Destroyed)
  }

  /** The instances that receive Destroy: every member, or only the available ones. */
  function DestroyedBy<T>(s: State<T>, destroyAllocated: bool): (r: set<T>)
    requires s.Live?
    ensures Inv(s) ==> Elements(s.availableObjects) <= r <= s.pool
    ensures Inv(s) ==> (r == s.pool <==> destroyAllocated || s.allocatedObjects == {})
  {
    if destroyAllocated then s.pool else Elements(s.availableObjects)
  }

  /** The instances the pool forgets without destroying them. */
  function OrphanedBy<T>(s: State<T>, destroyAllocated: bool): (r: set<T>)
    requires s.Live?
    ensures Inv(s) ==> r <= s.allocatedObjects
    ensures r == {} <==> destroyAllocated || s.allocatedObjects == {}
  {
    if destroyAllocated then {} else s.allocatedObjects
  }

  /** Destroy(false) destroys exactly the available instances and orphans exactly the allocated ones. */
  lemma DestroySplitsPool<T>(s: State<T>, destroyAllocated: bool)
    requires Inv(s) && s.Live?
    ensures DestroyedBy(s, destroyAllocated) + OrphanedBy(s, destroyAllocated) == s.pool
    ensures DestroyedBy(s, destroyAllocated) !! OrphanedBy(s, destroyAllocated)
    ensures destroyAllocated ==> s.allocatedObjects <= DestroyedBy(s, destroyAllocated)
  {
  }

  /** Destroyed is terminal: every operation fails from then on. */
  lemma DestroyedIsTerminal<T>(s: State<T>, destroyAllocated: bool, x: T, created: T, snapshot: seq<T>)
    requires DestroyPool(s, destroyAllocated).Ok?
    ensures var d := DestroyPool(s, destroyAllocated).value;
      Acquire(d, created) == Err(PoolDestroyed) &&
      Recycle(d, x) == Err(PoolDestroyed) &&
      RecycleAll(d, snapshot) == Err(PoolDestroyed) &&
      DestroyPool(d, destroyAllocated) == Err(PoolDestroyed) &&
      Size(d) == Err(NullReference) && AvailableItems(d) == Err(NullReference)
  {
  }

  // ----- sequences of acquisitions -----

  /**
   * `k` successive Acquire calls; `supply` lists the instances the generator
   * produces, consumed one at a time whenever the queue is empty.
   */
  function AcquireMany<T>(s: State<T>, k: nat, supply: seq<T>): (r: (State<T>, seq<T>))
    requires s.Live?
    requires k <= |s.availableObjects| + |supply|
    ensures r.0.Live? && |r.1| == k
    decreases k
  {
    if k == 0 then (s, [])
    else if s.availableObjects == [] then
      var (s1, x) := Take(Created(s, supply[0]));
      var (s2, xs) := AcquireMany(s1, k - 1, supply[1..]);
      (s2, [x] + xs)
    else
      var (s1, x) := Take(s);
      var (s2, xs) := AcquireMany(s1, k - 1, supply);
      (s2, [x] + xs)
  }

  /** The generator's instances are distinct and new to the pool. */
  predicate FreshSupply<T>(s: State<T>, supply: seq<T>)
    requires s.Live?
  {
    Distinct(supply) && Elements(supply) !! s.pool
  }

  /**
   * `AcquireMany` is repeated `Acquire`: its first step is one `Acquire`, fed
   * the generator's next instance when the queue is empty, and the rest runs
   * from the state that step leaves.
   */
  lemma AcquireManyStep<T>(s: State<T>, k: nat, supply: seq<T>, created: T)
    requires s.Live? && 0 < k <= |s.availableObjects| + |supply|
    requires s.availableObjects == [] ==> created == supply[0]
    ensures Acquire(s, created).Ok?
    ensures var (s1, x) := Acquire(s, created).value;
      var rest := if s.availableObjects == [] then supply[1..] else supply;
      AcquireMany(s, k, supply) == (AcquireMany(s1, k - 1, rest).0, [x] + AcquireMany(s1, k - 1, rest).1)
  {
  }

  /** One acquisition from a non-empty queue, then the rest. */
  lemma AcquireManyFromHead<T>(s: State<T>, k: nat, supply: seq<T>)
    requires s.Live? && 0 < k <= |s.availableObjects| + |supply| && s.availableObjects != []
    ensures var s1 := Take(s).0;
      AcquireMany(s, k, supply) ==
        (AcquireMany(s1, k - 1, supply).0, [s.availableObjects[0]] + AcquireMany(s1, k - 1, supply).1)
  {
  }

  /** One acquisition that first creates an instance, then the rest. */
  lemma AcquireManyFromNew<T>(s: State<T>, k: nat, supply: seq<T>)
    requires s.Live? && 0 < k <= |supply| && s.availableObjects == []
    ensures var s1 := Take(Created(s, supply[0])).0;
      s1 == Live(s.pool + {supply[0]}, s.allocatedObjects + {supply[0]}, []) &&
      AcquireMany(s, k, supply) ==
        (AcquireMany(s1, k - 1, supply[1..]).0, [supply[0]] + AcquireMany(s1, k - 1, supply[1..]).1)
  {
  }

  /** While the queue lasts, acquisitions hand it out in FIFO order and the pool does not grow. */
  lemma {:induction false} AcquireManyFromQueue<T>(s: State<T>, k: nat, supply: seq<T>)
    requires s.Live? && k <= |s.availableObjects|
    ensures AcquireMany(s, k, supply).0 ==
      Live(s.pool, s.allocatedObjects + Elements(s.availableObjects[..k]), s.availableObjects[k..])
    ensures AcquireMany(s, k, supply).1 == s.availableObjects[..k]
    decreases k
  {
    if k > 0 {
      var q := s.availableObjects;
      var s1 := Take(s).0;
      assert s1 == Live(s.pool, s.allocatedObjects + {q[0]}, q[1..]);
      AcquireManyFromHead(s, k, supply);
      AcquireManyFromQueue(s1, k - 1, supply);
      assert [q[0]] + q[1..][..k - 1] == q[..k];
      assert q[1..][k - 1..] == q[k..];
      assert Elements(q[..k]) == {q[0]} + Elements(q[1..][..k - 1]);
    }
  }

  /** With the queue empty, each acquisition creates one instance and hands it out at once. */
  lemma {:induction false} AcquireManyFromSupply<T>(s: State<T>, k: nat, supply: seq<T>)
    requires s.Live? && s.availableObjects == [] && k <= |supply|
    ensures AcquireMany(s, k, supply).0 ==
      Live(s.pool + Elements(supply[..k]), s.allocatedObjects + Elements(supply[..k]), [])
    ensures AcquireMany(s, k, supply).1 == supply[..k]
    decreases k
  {
    if k > 0 {
      var x := supply[0];
      var s1 := Live(s.pool + {x}, s.allocatedObjects + {x}, []);
      var rest := supply[1..][..k - 1];
      var (s2, xs) := AcquireMany(s1, k - 1, supply[1..]);
      assert AcquireMany(s, k, supply) == (s2, [x] + xs) by {
        AcquireManyFromNew(s, k, supply);
      }
      assert xs == rest && s2 == Live(s1.pool + Elements(rest), s1.allocatedObjects + Elements(rest), []) by {
        AcquireManyFromSupply(s1, k - 1, supply[1..]);
      }
      assert [x] + rest == supply[..k];
      assert Elements(supply[..k]) == {x} + Elements(rest);
    }
  }

  /** Acquiring `k` beyond the queue's length drains the queue, then hands out new instances. */
  lemma {:induction false} AcquireManyBeyondQueue<T>(s: State<T>, k: nat, supply: seq<T>)
    requires s.Live? && |s.availableObjects| <= k <= |s.availableObjects| + |supply|
    ensures var grown := supply[..k - |s.availableObjects|];
      AcquireMany(s, k, supply).1 == s.availableObjects + grown &&
      AcquireMany(s, k, supply).0 ==
        Live(s.pool + Elements(grown), s.allocatedObjects + Elements(s.availableObjects) + Elements(grown), [])
    decreases |s.availableObjects|
  {
    var q := s.availableObjects;
    if q == [] {
      AcquireManyFromSupply(s, k, supply);
    } else {
      var s1 := Live(s.pool, s.allocatedObjects + {q[0]}, q[1..]);
      var grown := supply[..k - |q|];
      var (s2, xs) := AcquireMany(s1, k - 1, supply);
      assert AcquireMany(s, k, supply) == (s2, [q[0]] + xs) by {
        AcquireManyFromHead(s, k, supply);
      }
      assert xs == q[1..] + grown &&
        s2 == Live(s.pool + Elements(grown), s1.allocatedObjects + Elements(q[1..]) + Elements(grown), []) by {
        AcquireManyBeyondQueue(s1, k - 1, supply);
        assert k - 1 - |q[1..]| == k - |q|;
      }
      assert [q[0]] + (q[1..] + grown) == q + grown by {
        assert [q[0]] + q[1..] == q;
      }
      assert s1.allocatedObjects + Elements(q[1..]) == s.allocatedObjects + Elements(q) by {
        assert Elements(q) == {q[0]} + Elements(q[1..]);
      }
    }
  }

  /**
   * `k` acquisitions hand out the queue in FIFO order and then the generator's
   * instances; the pool grows by exactly the shortfall `k - |available|`.
   */
  lemma AcquireManySpec<T>(s: State<T>, k: nat, supply: seq<T>)
    requires s.Live? && k <= |s.availableObjects| + |supply|
    ensures var n := |s.availableObjects|;
      var (s', xs) := AcquireMany(s, k, supply);
      (k <= n ==>
         xs == s.availableObjects[..k] &&
         s' == Live(s.pool, s.allocatedObjects + Elements(xs), s.availableObjects[k..])) &&
      (k > n ==>
         xs == s.availableObjects + supply[..k - n] &&
         s' == Live(s.pool + Elements(supply[..k - n]), s.allocatedObjects + Elements(xs), []))
  {
    var n := |s.availableObjects|;
    if k <= n {
      AcquireManyFromQueue(s, k, supply);
    } else {
      AcquireManyBeyondQueue(s, k, supply);
      assert Elements(s.availableObjects + supply[..k - n]) ==
        Elements(s.availableObjects) + Elements(supply[..k - n]);
    }
  }

  /** Acquisitions with fresh generator output keep the partition invariant. */
  lemma AcquireManyKeepsInv<T>(s: State<T>, k: nat, supply: seq<T>)
    requires Inv(s) && s.Live? && FreshSupply(s, supply)
    requires k <= |s.availableObjects| + |supply|
    ensures Inv(AcquireMany(s, k, supply).0)
  {
    AcquireManySpec(s, k, supply);
    var n := |s.availableObjects|;
    var q := s.availableObjects;
    if k <= n {
      assert q == q[..k] + q[k..];
      assert Elements(q) == Elements(q[..k]) + Elements(q[k..]);
      forall i, j | 0 <= i < k <= j < n ensures q[i] != q[j] { }
    } else {
      assert Elements(supply[..k - n]) <= Elements(supply);
    }
  }

  /**
   * Growth only on exhaustion: on a pool with nothing allocated, `k` acquisitions
   * leave the size at the larger of the old size and `k`.
   */
  lemma GrowthOnExhaustion<T>(s: State<T>, k: nat, supply: seq<T>)
    requires Inv(s) && s.Live? && s.allocatedObjects == {}
    requires FreshSupply(s, supply)
    requires k <= |s.pool| + |supply|
    ensures var n := |s.pool|;
      k <= |s.availableObjects| + |supply| &&
      Size(AcquireMany(s, k, supply).0) == Ok(if k <= n then n else k) &&
      AvailableItems(AcquireMany(s, k, supply).0) == Ok(if k <= n then n - k else 0)
  {
    var q := s.availableObjects;
    var n := |s.pool|;
    assert |q| == n by { DistinctCard(q); }
    var s' := AcquireMany(s, k, supply).0;
    if k > n {
      var grown := supply[..k - n];
      assert s'.pool == s.pool + Elements(grown) && s'.availableObjects == [] by {
        AcquireManySpec(s, k, supply);
      }
      assert Distinct(grown);
      assert |Elements(grown)| == k - n by { DistinctCard(grown); }
      assert Elements(grown) !! s.pool by { assert Elements(grown) <= Elements(supply); }
    } else {
      assert s'.pool == s.pool && s'.availableObjects == q[k..] by {
        AcquireManySpec(s, k, supply);
      }
    }
  }

  /**
   * FIFO reuse: with an empty queue, recycling distinct allocated instances in
   * the order `xs` and then acquiring `|xs|` times hands them back in that order.
   */
  lemma FifoReuse<T>(s: State<T>, xs: seq<T>)
    requires Inv(s) && s.Live? && s.availableObjects == []
    requires Distinct(xs) && Elements(xs) <= s.allocatedObjects
    ensures RecycleSeq(s, xs).Ok?
    ensures var r := RecycleSeq(s, xs).value;
      r.Live? && |xs| <= |r.availableObjects| && AcquireMany(r, |xs|, []).1 == xs
  {
    RecycleSeqAppends(s, xs);
    var r := RecycleSeq(s, xs).value;
    assert r.availableObjects == xs;
    AcquireManyFromQueue(r, |xs|, []);
    assert xs[..|xs|] == xs;
  }
}
