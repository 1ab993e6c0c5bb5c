# UPool object pool — Dafny model

UPool is an object pool for Unity projects. Its engine, `AbstractPool`, keeps three
collections:

- the set of every instance it created (`pool`);
- the set of instances checked out to callers (`allocatedObjects`);
- a FIFO queue of free instances (`availableObjects`).

`Acquire` hands out the head of the queue and creates a new instance from a
generator only when the queue is empty. `Recycle` takes an allocated instance back
to the tail of the queue. `RecycleAll` does that for every allocated instance.
`Destroy` tears the pool down: the collections are released and every later
operation throws.

Each instance implements the poolable contract (`Init`, `OnAllocate`,
`OnDeallocate`, `Destroy`). There are two poolables:

- `TestItem`, used by the unit tests;
- `PoolableObject`, a Unity component that switches its game object, or its
  colliders and renderers, on and off as the pool hands it out and takes it back.

The project has four modules:

- `PoolModel` (`pool_model.dfy`) states the engine's bookkeeping as pure functions
  over a `State`: `Live(pool, allocatedObjects, availableObjects)` or `Destroyed`.
  Its lemmas state what the engine promises:
  - the partition invariant;
  - growth only on exhaustion;
  - FIFO reuse;
  - recycle idempotence;
  - the terminal destroyed state.
- `UPool` (`upool.dfy`) holds the engine class `AbstractPool`, the class
  `PoolableObject`, the poolable contract `Poolable` and the generators.
  - Six methods of `AbstractPool` are proved against the matching `PoolModel`
    function of their old state, keep `Valid()`, and say which callback events
    they append to a ghost `log`: CreateNewInstance, Acquire, AllocateHead,
    Recycle, RecycleAll and Destroy.
  - InitializePool does not start from a valid pool: it builds fresh
    collections and establishes `Valid()`. Its new state is stated against
    `Initialized` of the new queue, and it logs one Init per instance.
  - The loops inside RecycleAll and Destroy are helper methods: RecycleEach,
    DeallocateEach, DestroyEach and DestroyAvailable, with DeallocateLogged and
    DestroyLogged for one step. Each requires only the facts its loop uses.
    Each states the collections it leaves, the events it logs and each member's
    new view, not a `PoolModel` function.
  - Every method also says what each member's observable state (`ItemView`)
    becomes.
- `TestItems` (`test_item.dfy`) holds the class `TestItem`.
- `Scenarios` (`scenarios.dfy`) restates the repository's unit and integration
  tests as methods whose postconditions are what the tests assert.

The poolable interface becomes a closed datatype, `Poolable = TestItemRef |
PoolableObjectRef`, whose methods dispatch to the two classes. The engine relies
on the generator for fresh instances. `CreateInstance` allocates a new object, so
no instance can already be a member.

Some behaviour follows the code closely:

- Recycling a foreign object fails with `ForeignObject` (AbstractPool.cs:58-61).
- A second recycle of an available member is ignored silently
  (AbstractPool.cs:49-56), and the model does the same (`RecycleIdempotent`).
- `Destroy`'s flag defaults to true (AbstractPool.cs:91). With it, `Destroy` fires
  OnDeallocate on every allocated instance first, then Destroy on every member
  (AbstractPool.cs:98-107). The model keeps that order.

## Model

| member | source | states |
|---|---|---|
| PoolModel.FireIsFireAll | Project/Assets/UPool/Scripts/AbstractPool.cs:98-107 | Firing a callback along any duplicate-free walk of a set yields, as a multiset, exactly one event per element of the set. |
| PoolModel.FireOrderIrrelevant | Project/Assets/UPool/Scripts/AbstractPool.cs:76-79 | Two walks of the same set (HashSet iteration order is unspecified) fire the same multiset of events. |
| PoolModel.AvailableWithinSize | Project/Assets/UPool/Scripts/AbstractPool.cs:16-28 | Under the partition invariant, AvailableItems never exceeds Size. |
| PoolModel.CreatedKeepsInv | Project/Assets/UPool/Scripts/AbstractPool.cs:165-171 | Adding a new instance grows Size and AvailableItems by one, puts it at the tail of the queue and keeps the partition invariant. |
| PoolModel.InitializedContents | Project/Assets/UPool/Scripts/AbstractPool.cs:148-159 | After creating the instances `created` on fresh collections, the pool is their set, nothing is allocated and the queue is `created` in creation order. |
| PoolModel.InitializedShape | Project/Assets/UPool/Scripts/AbstractPool.cs:148-159 | After initialisation with distinct instances, the invariant holds and Size == AvailableItems == the number created. |
| PoolModel.TakeKeepsInv | Project/Assets/UPool/Scripts/AbstractPool.cs:138-140 | Dequeuing the head and marking it allocated keeps the pool and the invariant; the head is allocated and no longer queued. |
| PoolModel.AcquireSpec | Project/Assets/UPool/Scripts/AbstractPool.cs:126-142 | Acquire on a live pool succeeds, grows Size by exactly one when the queue is empty and not otherwise, and returns the head of the queue (or the new instance). The result ends up allocated and not queued, and the rest of the queue keeps its order. |
| PoolModel.Recycle | Project/Assets/UPool/Scripts/AbstractPool.cs:42-62 | Recycle succeeds only on a live pool and leaves it live. |
| PoolModel.RecycleSpec | Project/Assets/UPool/Scripts/AbstractPool.cs:42-62 | Recycle succeeds exactly for members of a live pool. A foreign object gives ForeignObject. An allocated member moves to the tail of the queue with the pool unchanged. An available member leaves the state unchanged. |
| PoolModel.RecycleIdempotent | Project/Assets/UPool/Scripts/AbstractPool.cs:49-56 | Recycling the same object a second time changes nothing: no duplicate in the queue. |
| PoolModel.RecycleSeq | Project/Assets/UPool/Scripts/AbstractPool.cs:76-79 | The foreach of Recycle calls, stopping at the first error: on a destroyed pool a non-empty run fails with PoolDestroyed. A successful run on a live pool leaves it live with the same members, every recycled object was a member, and the allocated set loses exactly the recycled objects. |
| PoolModel.RecycleSeqAppends | Project/Assets/UPool/Scripts/AbstractPool.cs:49-56 | Recycling distinct allocated instances in order removes them from the allocated set and appends them to the queue in that order, keeping the invariant. |
| PoolModel.RecycleAllSpec | Project/Assets/UPool/Scripts/AbstractPool.cs:67-82 | RecycleAll over a duplicate-free snapshot of the allocated set ends with nothing allocated and every member available. Size is unchanged and AvailableItems == Size. |
| PoolModel.DestroySplitsPool | Project/Assets/UPool/Scripts/AbstractPool.cs:98-114 | The destroyed and the orphaned instances partition the pool. With the flag, every allocated instance is destroyed. |
| PoolModel.DestroyedIsTerminal | Project/Assets/UPool/Scripts/AbstractPool.cs:91-120 | After Destroy, Acquire, Recycle, RecycleAll and Destroy all fail with PoolDestroyed, and Size and AvailableItems fail with NullReference. |
| PoolModel.Size | Project/Assets/UPool/Scripts/AbstractPool.cs:16-19 | Defined exactly on a live pool, where it is the member count; NullReference once destroyed. |
| PoolModel.AvailableItems | Project/Assets/UPool/Scripts/AbstractPool.cs:25-28 | Defined exactly on a live pool, where it is the queue length; NullReference once destroyed. |
| PoolModel.Created | Project/Assets/UPool/Scripts/AbstractPool.cs:165-171 | The new instance joins the pool and the tail of the queue; the allocated set is unchanged. |
| PoolModel.Initialized | Project/Assets/UPool/Scripts/AbstractPool.cs:148-159 | Creating the instances one by one on fresh collections leaves nothing allocated and the queue equal to the created instances in creation order. |
| PoolModel.Take | Project/Assets/UPool/Scripts/AbstractPool.cs:138-140 | Returns the head of the queue and marks it allocated; the pool is unchanged and the rest of the queue keeps its order. |
| PoolModel.Acquire | Project/Assets/UPool/Scripts/AbstractPool.cs:126-142 | Succeeds exactly on a live pool, PoolDestroyed otherwise. The result is the head of the queue, or the generator's instance when the queue is empty; it ends up allocated, and the pool gains that instance only in the empty-queue case. |
| PoolModel.RecycleAll | Project/Assets/UPool/Scripts/AbstractPool.cs:67-82 | PoolDestroyed once destroyed. A success keeps the pool's members and leaves nothing allocated. |
| PoolModel.DestroyPool | Project/Assets/UPool/Scripts/AbstractPool.cs:91-120 | Succeeds exactly on a live pool and leaves it destroyed; PoolDestroyed otherwise. |
| PoolModel.DestroyedBy | Project/Assets/UPool/Scripts/AbstractPool.cs:98-114 | Under the invariant, every available instance is destroyed and nothing outside the pool is; all members are destroyed iff the flag is set or nothing is allocated. |
| PoolModel.OrphanedBy | Project/Assets/UPool/Scripts/AbstractPool.cs:109-114 | Under the invariant, only allocated instances are orphaned; none is iff the flag is set or nothing is allocated. |
| PoolModel.AcquireMany | Project/Assets/UPool/Scripts/AbstractPool.cs:126-142 | k successive acquisitions leave a live pool and hand out exactly k instances. |
| PoolModel.AcquireManyStep | Project/Assets/UPool/Scripts/AbstractPool.cs:126-142 | The first of k acquisitions is one model Acquire, fed the generator's next instance when the queue is empty. The rest start from the state it leaves, so the AcquireMany lemmas are about repeated Acquire. |
| PoolModel.AcquireManyFromQueue | Project/Assets/UPool/Scripts/AbstractPool.cs:138-140 | While the queue lasts, k acquisitions hand out its first k elements in FIFO order, with the pool unchanged. |
| PoolModel.AcquireManyFromSupply | Project/Assets/UPool/Scripts/AbstractPool.cs:133-141 | With an empty queue, each acquisition creates one instance and hands it out at once, in generator order. |
| PoolModel.AcquireManyBeyondQueue | Project/Assets/UPool/Scripts/AbstractPool.cs:133-141 | Acquiring past the queue drains it first, then hands out exactly the shortfall of new instances. |
| PoolModel.AcquireManySpec | Project/Assets/UPool/Scripts/AbstractPool.cs:126-142 | k acquisitions return the queue prefix, followed by new instances when k exceeds the queue. The pool grows by exactly k minus the queue length, when positive. |
| PoolModel.AcquireManyKeepsInv | Project/Assets/UPool/Scripts/AbstractPool.cs:126-142 | Any number of acquisitions with fresh generator output keeps the partition invariant. |
| PoolModel.GrowthOnExhaustion | Project/Assets/UPool/Scripts/AbstractPool.cs:133-136 | On a pool with nothing allocated, k acquisitions leave Size == max(old size, k) and AvailableItems == max(old size - k, 0). |
| PoolModel.FifoReuse | Project/Assets/UPool/Scripts/AbstractPool.cs:55 | With an empty queue, recycling distinct allocated instances and then acquiring as many hands them back in recycle order. |
| TestItems.TestItem.constructor | Project/Assets/UPool/UnitTests/Editor/TestItem.cs:10-14 | A new item has the empty name, number UNALLOCATED_NUMBER (-1) and is not destroyed. |
| TestItems.TestItem.Destroy | Project/Assets/UPool/UnitTests/Editor/TestItem.cs:16-19 | Sets isDestroyed whatever it was (idempotent) and leaves name and number. |
| TestItems.TestItem.Init | Project/Assets/UPool/UnitTests/Editor/TestItem.cs:21-23 | Changes no field. |
| TestItems.TestItem.OnAllocate | Project/Assets/UPool/UnitTests/Editor/TestItem.cs:25-28 | Sets number to some value from 1 to 99, never the sentinel, and leaves name and isDestroyed. |
| TestItems.TestItem.OnDeallocate | Project/Assets/UPool/UnitTests/Editor/TestItem.cs:30-33 | Sets number to UNALLOCATED_NUMBER and leaves name and isDestroyed. |
| UPool.PoolableObject.Instantiate | Project/Assets/UPool/Scripts/Generators/UnityGenerator.cs:21-26 | A copy of a prefab has the prefab's switches, activity, component flags and self-subscribed actions, no owner and no component lookup. |
| UPool.PoolableObject.Init | Project/Assets/UPool/Scripts/Components/PoolableObject.cs:29-36 | Stores the owner and looks up the components; nothing else changes. |
| UPool.PoolableObject.OnAllocate | Project/Assets/UPool/Scripts/Components/PoolableObject.cs:38-61 | With disableObject, activates the object and leaves every component. Otherwise the activity is unchanged: all colliders and 2D colliders are enabled iff disableColliders, and all renderers iff disableRenderers. The OnAllocate action then runs once if subscribed. |
| UPool.PoolableObject.OnDeallocate | Project/Assets/UPool/Scripts/Components/PoolableObject.cs:63-86 | The mirror of OnAllocate: deactivates, or disables the switched component groups, and then runs the OnDeallocate action once if subscribed. |
| UPool.PoolableObject.Destroy | Project/Assets/UPool/Scripts/Components/PoolableObject.cs:88-97 | Clears the owner, the component lookups and both actions; activity, component flags and past notifications stay. |
| UPool.PoolableObject.Recycle | Project/Assets/UPool/Scripts/Components/PoolableObject.cs:102-105 | With no owner it fails with NullReference. Otherwise it has exactly the effect of the owner's Recycle of this object. The result and the owner's new state are the model's Recycle. When the object was allocated, the owner's log gains one OnDeallocate for it and the object's view becomes DeallocateEffect of its old view. Otherwise the log and the view are unchanged. Every other member of the owner keeps its view. |
| UPool.PoolableObject.EnableColliders | Project/Assets/UPool/Scripts/Components/PoolableObject.cs:110-121 | Every collider and every 2D collider is enabled; nothing else changes. |
| UPool.PoolableObject.DisableColliders | Project/Assets/UPool/Scripts/Components/PoolableObject.cs:126-137 | Every collider and every 2D collider is disabled; nothing else changes. |
| UPool.PoolableObject.EnableRenderers | Project/Assets/UPool/Scripts/Components/PoolableObject.cs:142-148 | Every renderer is enabled; nothing else changes. |
| UPool.PoolableObject.DisableRenderers | Project/Assets/UPool/Scripts/Components/PoolableObject.cs:153-159 | Every renderer is disabled; nothing else changes. |
| UPool.PoolableObject.SetEnabled | Project/Assets/UPool/Scripts/Components/PoolableObject.cs:112-115 | The loop leaves a list of the same length with every element set to the requested flag. |
| UPool.Poolable.Init | Project/Assets/UPool/Scripts/Interfaces/IPoolable.cs:5 | Dispatches Init; the instance is ready and its view is InitEffect of the old view. |
| UPool.Poolable.OnAllocate | Project/Assets/UPool/Scripts/Interfaces/IPoolable.cs:6 | Dispatches OnAllocate; the new view is related to the old one by AllocateEffect. |
| UPool.Poolable.OnDeallocate | Project/Assets/UPool/Scripts/Interfaces/IPoolable.cs:7 | Dispatches OnDeallocate; the new view is DeallocateEffect of the old one. |
| UPool.Poolable.Destroy | Project/Assets/UPool/Scripts/Interfaces/IPoolable.cs:8 | Dispatches Destroy; the new view is DestroyEffect of the old one. |
| UPool.InitEffect | Project/Assets/UPool/Scripts/Components/PoolableObject.cs:29-36 | Init leaves a TestItem as it was; a PoolableObject gets the owner and its component lookups, and nothing else changes. |
| UPool.Toggled | Project/Assets/UPool/Scripts/Components/PoolableObject.cs:38-86 | The allocate or deallocate callback of a PoolableObject. With disableObject, only the activity is switched. Otherwise the activity is kept, every collider and 2D collider is switched iff disableColliders and every renderer iff disableRenderers, and untouched groups stay as they were. The subscribed action runs once. Switches, owner, lookups and actions are kept. |
| UPool.AllocateEffect | Project/Assets/UPool/UnitTests/Editor/TestItem.cs:25-28 | An allocated instance keeps its kind, and an allocated TestItem never carries the unallocated number. |
| UPool.DeallocateEffect | Project/Assets/UPool/UnitTests/Editor/TestItem.cs:30-33 | A deallocated TestItem has number UNALLOCATED_NUMBER and keeps its name and destroyed flag; a deallocated disableObject PoolableObject is inactive, with its switches and owner kept. |
| UPool.DestroyEffectSpec | Project/Assets/UPool/Scripts/Components/PoolableObject.cs:88-97 | Destroy marks a TestItem destroyed and makes a PoolableObject drop its owner, lookups and actions, keeping its activity, components and notifications; destroying twice is destroying once. |
| UPool.DestroyedView | Project/Assets/UPool/Scripts/AbstractPool.cs:98-114 | After the pool's Destroy, an orphaned member (allocated, without the flag) is untouched and every other member is in a destroyed state; a TestItem ends destroyed iff it was not orphaned or was already destroyed. |
| UPool.Generator.CreateInstance | Project/Assets/UPool/Scripts/Generators/DefaultGenerator.cs:17-20 | Returns a newly allocated instance of the generator's kind, in the generator's fresh state. |
| UPool.AbstractPool.constructor | Project/Assets/UPool/Scripts/AbstractPool.cs:148-159 | A new pool is valid and not destroyed. It holds max(initialSize, 0) fresh instances, all available in creation order, and Init fired once on each. |
| UPool.AbstractPool.Size | Project/Assets/UPool/Scripts/AbstractPool.cs:16-19 | The member count of a live pool; NullReference once destroyed. |
| UPool.AbstractPool.AvailableItems | Project/Assets/UPool/Scripts/AbstractPool.cs:25-28 | The queue length of a live pool, never more than Size; NullReference once destroyed. |
| UPool.AbstractPool.InitializePool | Project/Assets/UPool/Scripts/AbstractPool.cs:148-159 | Fresh collections filled with max(initialSize, 0) new instances. The state equals the model's Initialized, the log gains exactly one Init per instance in creation order, and the invariant holds. |
| UPool.AbstractPool.CreateNewInstance | Project/Assets/UPool/Scripts/AbstractPool.cs:165-171 | A fresh non-member joins the pool at the tail of the queue, which is the model's Created. Init fires once on it and no other member changes. |
| UPool.AbstractPool.Acquire | Project/Assets/UPool/Scripts/AbstractPool.cs:126-142 | Fails with PoolDestroyed, changing nothing, once destroyed. Otherwise the state and result are the model's Acquire and the instance is the head of the queue or a fresh one. The log gains Init (only for a fresh instance) and then OnAllocate. No other member changes. |
| UPool.AbstractPool.AllocateHead | Project/Assets/UPool/Scripts/AbstractPool.cs:138-141 | Dequeues the head, fires OnAllocate on it and marks it allocated: the model's Take, with no other member changed. |
| UPool.AbstractPool.Recycle | Project/Assets/UPool/Scripts/AbstractPool.cs:42-62 | Result and new state are the model's Recycle. OnDeallocate fires once exactly when the object was allocated, and only that object changes. |
| UPool.AbstractPool.RecycleAll | Project/Assets/UPool/Scripts/AbstractPool.cs:67-82 | Fails with PoolDestroyed once destroyed. Otherwise it walks a duplicate-free snapshot of the allocated set, and the new state is the model's RecycleAll of that snapshot. OnDeallocate fires once per previously allocated instance, in snapshot order; the others are untouched. |
| UPool.AbstractPool.RecycleEach | Project/Assets/UPool/Scripts/AbstractPool.cs:74-79 | Recycles every instance of a copy of the allocated set: all end up at the tail of the queue in the walk order, with one OnDeallocate each. |
| UPool.AbstractPool.Destroy | Project/Assets/UPool/Scripts/AbstractPool.cs:91-120 | Fails with PoolDestroyed once destroyed. Otherwise the pool ends in the model's Destroyed state. The log is OnDeallocate on each allocated instance (only with the flag), then Destroy on DestroyedBy: every member with the flag, the queue in FIFO order without it. Each member's view is DestroyedView. |
| UPool.AbstractPool.DeallocateEach | Project/Assets/UPool/Scripts/AbstractPool.cs:100-103 | Fires OnDeallocate once on each allocated instance of a copy of the set, leaving the collections and the other members unchanged. |
| UPool.AbstractPool.DestroyEach | Project/Assets/UPool/Scripts/AbstractPool.cs:104-107 | Fires Destroy once on each member of a copy of the pool, leaving the collections unchanged. |
| UPool.AbstractPool.DeallocateLogged | Project/Assets/UPool/Scripts/AbstractPool.cs:102 | Fires OnDeallocate on one member and logs it. The member's view becomes DeallocateEffect of its old view, and every other member is untouched. |
| UPool.AbstractPool.DestroyLogged | Project/Assets/UPool/Scripts/AbstractPool.cs:106 | Fires Destroy on one member and logs it. The member's view becomes DestroyEffect of its old view, and every other member is untouched. |
| UPool.AbstractPool.DestroyAvailable | Project/Assets/UPool/Scripts/AbstractPool.cs:111-114 | Dequeues and destroys the queue in FIFO order until it is empty; allocated instances are untouched. |
| Scenarios.SizingScenario | Project/Assets/UPool/UnitTests/Editor/UnitTests.cs:10-29 | A pool of 3 has size 3, still 3 after three acquisitions, and 4 after the fourth. |
| Scenarios.AllocationScenario | Project/Assets/UPool/UnitTests/Editor/UnitTests.cs:31-40 | An acquired TestItem's number is from 1 to 99, never UNALLOCATED_NUMBER. |
| Scenarios.DeallocationScenario | Project/Assets/UPool/UnitTests/Editor/UnitTests.cs:42-52 | A recycled TestItem's number is UNALLOCATED_NUMBER. |
| Scenarios.RecycleScenario | Project/Assets/UPool/UnitTests/Editor/UnitTests.cs:54-68 | In a pool of one, re-acquiring after a recycle returns the same item with the name the client set. |
| Scenarios.DestroyAllScenario | Project/Assets/UPool/UnitTests/Editor/UnitTests.cs:70-84 | Destroy() with its default flag destroys both the recycled and the still-allocated item. |
| Scenarios.DestroyUnallocatedScenario | Project/Assets/UPool/UnitTests/Editor/UnitTests.cs:86-100 | Destroy(false) destroys the recycled item and leaves the allocated one undestroyed. |
| Scenarios.DisableObjectScenario | Project/Assets/UPool/UnitTests/IntegrationTests/Scripts/RecycleTests.cs:63-79 | With disableObject, the acquired object is active, the recycled one inactive, and its colliders and renderers are the prefab's. |
| Scenarios.SelfRecycleScenario | Project/Assets/UPool/Scripts/Components/PoolableObject.cs:102-105 | A component from a disableObject pool that recycles itself through its owner succeeds, ends inactive and is available again. |
| Scenarios.DisableCollidersScenario | Project/Assets/UPool/UnitTests/IntegrationTests/Scripts/RecycleTests.cs:81-94 | With only disableColliders, a recycled object keeps the prefab's activity and renderers, and all of its colliders are disabled. |
| Scenarios.DisableRenderersScenario | Project/Assets/UPool/UnitTests/IntegrationTests/Scripts/RecycleTests.cs:96-109 | With only disableRenderers, a recycled object keeps the prefab's activity and colliders, and all of its renderers are disabled. |
| Scenarios.AllocateActionScenario | Project/Assets/UPool/UnitTests/IntegrationTests/Scripts/AllocationTest.cs:14-23 | Acquiring a copy of a prefab whose component subscribed an allocate action runs that action exactly once. |
| Scenarios.DeallocateActionScenario | Project/Assets/UPool/UnitTests/IntegrationTests/Scripts/DeallocationTest.cs:25-32 | Acquiring and then recycling such a copy runs the deallocate action exactly once, after the allocate action if any. |

## Left out

- Generators: reflection (`Activator.CreateInstance` in DefaultGenerator.cs and ObjectGenerator.cs) and Unity's `Instantiate` with its position reset (UnityGenerator.cs:21-26) are foreign calls. `Generator.CreateInstance` replaces them with a fresh TestItem or a copy of a prefab `Template`. The two generator files that both declare `DefaultGenerator` are one generator here.
- Pool.cs: the typed facade with its downcasts is not part of this model. Its `base(initialSize)` constructor is not defined in AbstractPool.cs. `AbstractPool.constructor` stands for `new Pool<T>(n)`: it takes the generator as a parameter and calls InitializePool.
- Editor/TestItem.cs: a duplicate of UnitTests/Editor/TestItem.cs; `TestItems.TestItem` models both.
- Transform placement (parent, position, rotation, scale) asserted in RecycleTests.cs:40-61, and the `Pool` overloads and `DestroyAndDeallocateAll` it uses: float vectors and Unity hierarchy are not modelled.
- PoolableObjectEditor.cs, Demo.cs and DemoObj.cs: inspector UI, buttons, mouse input and random colours. DemoObj's `Awake` subscription is modelled as the template's self-subscribed actions. `DemoObj.AllocationState`, which the integration tests read, does not exist in DemoObj.cs. The action scenarios observe the actions' invocation instead.
- Unity components: each collider, 2D collider and renderer is one `enabled` flag in a `seq<bool>` field of the PoolableObject. `gameObject.activeSelf` is the `active` field. `GetComponentsInChildren` is modelled as the `cached` flag: Init sets it and Destroy clears it.
- UPool.PoolableObject.OnAllocate: requires `cached` whenever it would touch a component group. On a never-initialised or destroyed object the source would throw NullReferenceException; that path is not modelled.
- UPool.PoolableObject.OnDeallocate: requires `cached` whenever it would touch a component group; the NullReferenceException path of a never-initialised or destroyed object is not modelled.
- UPool.PoolableObject.EnableColliders: requires `cached`; the NullReferenceException on null collider arrays is not modelled.
- UPool.PoolableObject.DisableColliders: requires `cached`; the NullReferenceException on null collider arrays is not modelled.
- UPool.PoolableObject.EnableRenderers: requires `cached`; the NullReferenceException on a null renderer array is not modelled.
- UPool.PoolableObject.DisableRenderers: requires `cached`; the NullReferenceException on a null renderer array is not modelled.
- Actions: a subscribed action is an opaque `Listener` id. Its invocation is recorded in `notified`, and what it does (including calling back into the pool) is not modelled. A multicast delegate is one listener.
- HashSet iteration order: the loops over the allocated set and the pool choose elements with `:|`. Their contracts hold for every order, and the order taken is returned as a ghost sequence.
- UPool.AbstractPool.DestroyAvailable: dequeues from a local copy of the queue and empties the field once the loop ends. The source dequeues the field itself. No callback in the model can observe the queue during the loop, so the end state and the log are the same.
- UPool.Poolable: the `IPoolable` interface is a closed sum over the two poolables of the repository; other implementations are not covered.
- TestItems.TestItem.Init: takes no owner argument, since the source ignores it.
- UPool.AbstractPool.log: the callback log is ghost state added by the model; the source keeps no such record.
- `PoolType` and the exception messages are not modelled; exceptions are the three `PoolError` values.
- UPool.Generator.CreateInstance: always returns a new, valid instance. In the source, `Activator.CreateInstance` (DefaultGenerator.cs:19) can throw. `GetComponent<IPoolable>()` (UnityGenerator.cs:25) returns null for a prefab without a poolable component. CreateNewInstance (AbstractPool.cs:167-170) then adds that null to the pool and the queue before `Init` throws. These failure paths are not modelled.
