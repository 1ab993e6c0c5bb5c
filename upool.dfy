/**
 * The pool engine (AbstractPool), the component that makes a hosted object
 * poolable (PoolableObject) and the poolable contract that connects them.
 *
 * The poolable contract is a closed sum over the two poolables of the project,
 * `Poolable`, whose methods dispatch to the concrete callbacks. What a callback
 * does to an instance is stated on an `ItemView`, a snapshot of the instance's
 * observable fields, so that the engine can promise it for every member.
 */
module UPool {
  import opened PoolModel
  import opened TestItems

  datatype Option<T> = None | Some(value: T)

  /** Identity of a subscriber to a PoolableObject's allocate or deallocate action. */
  type Listener = nat

  /** The three serialized switches of a PoolableObject. */
  datatype Settings = Settings(disableObject: bool, disableColliders: bool, disableRenderers: bool)

  /**
   * A prefab: the switches, whether the object is active, the `enabled` flags
   * of the colliders, 2D colliders and renderers in its hierarchy, and the
   * actions its own components subscribe when a copy wakes up.
   */
  datatype Template = Template(
    settings: Settings, active: bool,
    colliders: seq<bool>, colliders2D: seq<bool>, renderers: seq<bool>,
    onAllocate: Option<Listener>, onDeallocate: Option<Listener>)

  /** The invocations a listener receives: one, if it is subscribed. */
  function Notify(listener: Option<Listener>): seq<Listener>
  {
    if listener.Some? then [listener.value] else []
  }

  /**
   * A hosted object that enables or disables itself, or its colliders and
   * renderers, when the pool hands it out or takes it back.
   */
  class PoolableObject {
    const settings: Settings
    /** `gameObject.activeSelf` */
    var active: bool
    /** The `enabled` flags of the colliders, 2D colliders and renderers in the object's hierarchy. */
    var colliders: seq<bool>
    var colliders2D: seq<bool>
    var renderers: seq<bool>
    var owner: AbstractPool?
    /** The component lookups of Init are held; they are null before Init and after Destroy. */
    var cached: bool
    /** The subscribed OnAllocate and OnDeallocate actions. */
    var onAllocate: Option<Listener>
    var onDeallocate: Option<Listener>
    /** Every invocation of a subscribed action, in order. */
    var notified: seq<Listener>

    /** A copy of the prefab, as the template generator instantiates it. */
    constructor Instantiate(prefab: Template)
      ensures settings == prefab.settings && active == prefab.active
      ensures colliders == prefab.colliders && colliders2D == prefab.colliders2D
      ensures renderers == prefab.renderers
      ensures owner == null && !cached
      ensures onAllocate == prefab.onAllocate && onDeallocate == prefab.onDeallocate && notified == []
    {
      settings := prefab.settings;
      active := prefab.active;
      colliders, colliders2D, renderers := prefab.colliders, prefab.colliders2D, prefab.renderers;
      owner := null;
      cached := false;
      onAllocate, onDeallocate, notified := prefab.onAllocate, prefab.onDeallocate, [];
    }

    /** Stores the owner and looks up the components; nothing else changes. */
    method Init(owner: AbstractPool)
      modifies this
      ensures this.owner == owner && cached
      ensures active == old(active) && notified == old(notified)
      ensures colliders == old(colliders) && colliders2D == old(colliders2D) && renderers == old(renderers)
      ensures onAllocate == old(onAllocate) && onDeallocate == old(onDeallocate)
    {
      this.owner := owner;
      cached := true;
    }

    /**
     * Activates the object when it is switched to disable itself; otherwise
     * enables the colliders and the renderers whose switches are set. Then
     * invokes the subscribed OnAllocate action.
     */
    method OnAllocate()
      requires !settings.disableObject && (settings.disableColliders || settings.disableRenderers) ==> cached
      modifies this
      ensures owner == old(owner) && cached == old(cached)
      ensures onAllocate == old(onAllocate) && onDeallocate == old(onDeallocate)
      ensures active == (settings.disableObject || old(active))
      ensures colliders ==
        if !settings.disableObject && settings.disableColliders
        then seq(|old(colliders)|, _ => true) else old(colliders)
      ensures colliders2D ==
        if !settings.disableObject && settings.disableColliders
        then seq(|old(colliders2D)|, _ => true) else old(colliders2D)
      ensures renderers ==
        if !settings.disableObject && settings.disableRenderers
        then seq(|old(renderers)|, _ => true) else old(renderers)
      ensures notified == old(notified) + Notify(onAllocate)
    {
      if settings.disableObject {
        active := true;
      } else {
        if settings.disableColliders {
          EnableColliders();
        }
        if settings.disableRenderers {
          EnableRenderers();
        }
      }
      if onAllocate.Some? {
        notified := notified + [onAllocate.value];
      }
    }

    /**
     * Deactivates the object when it is switched to disable itself; otherwise
     * disables the colliders and the renderers whose switches are set. Then
     * invokes the subscribed OnDeallocate action.
     */
    method OnDeallocate()
      requires !settings.disableObject && (settings.disableColliders || settings.disableRenderers) ==> cached
      modifies this
      ensures owner == old(owner) && cached == old(cached)
      ensures onAllocate == old(onAllocate) && onDeallocate == old(onDeallocate)
      ensures active == (!settings.disableObject && old(active))
      ensures colliders ==
        if !settings.disableObject && settings.disableColliders
        then seq(|old(colliders)|, _ => false) else old(colliders)
      ensures colliders2D ==
        if !settings.disableObject && settings.disableColliders
        then seq(|old(colliders2D)|, _ => false) else old(colliders2D)
      ensures renderers ==
        if !settings.disableObject && settings.disableRenderers
        then seq(|old(renderers)|, _ => false) else old(renderers)
      ensures notified == old(notified) + Notify(onDeallocate)
    {
      if settings.disableObject {
        active := false;
      } else {
        if settings.disableColliders {
          DisableColliders();
        }
        if settings.disableRenderers {
          DisableRenderers();
        }
      }
      if onDeallocate.Some? {
        notified := notified + [onDeallocate.value];
      }
    }

    /** Drops the owner, the component lookups and both subscribed actions. */
    method Destroy()
      modifies this
      ensures owner == null && !cached
      ensures onAllocate == None && onDeallocate == None
      ensures active == old(active) && notified == old(notified)
      ensures colliders == old(colliders) && colliders2D == old(colliders2D) && renderers == old(renderers)
    {
      owner := null;
      cached := false;
      onAllocate := None;
      onDeallocate := None;
    }

    /** Hands the object back to its owner: exactly the owner's Recycle of this object. */
    method Recycle() returns (r: Outcome)
      requires owner != null ==> owner.Valid()
      modifies if owner != null then {owner} + owner.Footprint() else {}
      ensures old(owner) == null ==> r == Fail(NullReference)
      ensures old(owner) != null ==>
        var pool := old(owner);
        var res := PoolModel.Recycle(old(pool.State()), PoolableObjectRef(this));
        pool.Valid() &&
        (res.Err? ==> r == Fail(res.error) && pool.State() == old(pool.State())) &&
        (res.Ok? ==> r == Pass && pool.State() == res.value)
      ensures old(owner) != null ==>
        var me := PoolableObjectRef(this);
        var wasAllocated := me in old(owner.allocatedObjects);
        old(owner).log == old(owner.log) + (if wasAllocated then [Event(Callback.OnDeallocate, me)] else []) &&
        ObjectViewOf(this) == if wasAllocated then DeallocateEffect(old(ObjectViewOf(this))) else old(ObjectViewOf(this))
      ensures old(owner) != null ==>
        forall y | y in old(owner.pool) && y != PoolableObjectRef(this) :: y.View() == old(y.View())
    {
      if owner == null {
        return Fail(NullReference);
      }
      var me := PoolableObjectRef(this);
      assert me !in owner.pool ==> this !in owner.Footprint() by {
        forall x | x in owner.pool && x.Obj() == this
          ensures x == me
        {
          if x != me {
            ObjectsApart(x, me);
          }
        }
      }
      r := owner.Recycle(me);
    }

    /** Enables every collider and then every 2D collider. */
    method EnableColliders()
      requires cached
      modifies this
      ensures colliders == seq(|old(colliders)|, _ => true)
      ensures colliders2D == seq(|old(colliders2D)|, _ => true)
      ensures renderers == old(renderers) && active == old(active) && notified == old(notified)
      ensures owner == old(owner) && cached && onAllocate == old(onAllocate) && onDeallocate == old(onDeallocate)
    {
      colliders := SetEnabled(colliders, true);
      colliders2D := SetEnabled(colliders2D, true);
    }

    /** Disables every collider and then every 2D collider. */
    method DisableColliders()
      requires cached
      modifies this
      ensures colliders == seq(|old(colliders)|, _ => false)
      ensures colliders2D == seq(|old(colliders2D)|, _ => false)
      ensures renderers == old(renderers) && active == old(active) && notified == old(notified)
      ensures owner == old(owner) && cached && onAllocate == old(onAllocate) && onDeallocate == old(onDeallocate)
    {
      colliders := SetEnabled(colliders, false);
      colliders2D := SetEnabled(colliders2D, false);
    }

    /** Enables every renderer. */
    method EnableRenderers()
      requires cached
      modifies this
      ensures renderers == seq(|old(renderers)|, _ => true)
      ensures colliders == old(colliders) && colliders2D == old(colliders2D)
      ensures active == old(active) && notified == old(notified)
      ensures owner == old(owner) && cached && onAllocate == old(onAllocate) && onDeallocate == old(onDeallocate)
    {
      renderers := SetEnabled(renderers, true);
    }

    /** Disables every renderer. */
    method DisableRenderers()
      requires cached
      modifies this
      ensures renderers == seq(|old(renderers)|, _ => false)
      ensures colliders == old(colliders) && colliders2D == old(colliders2D)
      ensures active == old(active) && notified == old(notified)
      ensures owner == old(owner) && cached && onAllocate == old(onAllocate) && onDeallocate == old(onDeallocate)
    {
      renderers := SetEnabled(renderers, false);
    }

    /** Sets `enabled` on every component of the list, first to last; the list keeps its length. */
    static method SetEnabled(components: seq<bool>, enabled: bool) returns (r: seq<bool>)
      ensures |r| == |components|
      ensures forall i | 0 <= i < |r| :: r[i] == enabled
    {
      r := components;
      for i := 0 to |r|
        invariant |r| == |components|
        invariant forall j | 0 <= j < i :: r[j] == enabled
      {
        r := r[i := enabled];
      }
    }
  }

  // ----- the poolable contract -----

  /** The observable state of a poolable instance. */
  datatype ItemView =
    | TestItemView(name: string, number: int, isDestroyed: bool)
    | ObjectView(
        settings: Settings, owner: AbstractPool?, cached: bool, active: bool,
        colliders: seq<bool>, colliders2D: seq<bool>, renderers: seq<bool>,
        onAllocate: Option<Listener>, onDeallocate: Option<Listener>, notified: seq<Listener>)

  /** What Init does: a PoolableObject stores its owner and looks up its components. */
  function InitEffect(v: ItemView, owner: AbstractPool): (r: ItemView)
    ensures v.TestItemView? ==> r == v
    ensures v.ObjectView? ==> r.ObjectView? && r.owner == owner && r.cached && r.(owner := v.owner, cached := v.cached) == v
  {
    if v.TestItemView? then v else v.(owner := owner, cached := true)
  }

  /** The allocate (`enable`) or deallocate callback of a PoolableObject. */
  function Toggled(v: ItemView, enable: bool): (r: ItemView)
    requires v.ObjectView?
    ensures r.ObjectView? && r.settings == v.settings && r.owner == v.owner && r.cached == v.cached
    ensures r.onAllocate == v.onAllocate && r.onDeallocate == v.onDeallocate
    ensures |r.colliders| == |v.colliders| && |r.colliders2D| == |v.colliders2D| && |r.renderers| == |v.renderers|
    ensures r.active == if v.settings.disableObject then enable else v.active
    ensures !v.settings.disableObject && v.settings.disableColliders ==>
      (forall i | 0 <= i < |r.colliders| :: r.colliders[i] == enable) &&
      (forall i | 0 <= i < |r.colliders2D| :: r.colliders2D[i] == enable)
    ensures v.settings.disableObject || !v.settings.disableColliders ==>
      r.colliders == v.colliders && r.colliders2D == v.colliders2D
    ensures !v.settings.disableObject && v.settings.disableRenderers ==>
      forall i | 0 <= i < |r.renderers| :: r.renderers[i] == enable
    ensures v.settings.disableObject || !v.settings.disableRenderers ==> r.renderers == v.renderers
    ensures r.notified == v.notified + Notify(if enable then v.onAllocate else v.onDeallocate)
  {
    var s := v.settings;
    var components := !s.disableObject;
    v.(active := if s.disableObject then enable else v.active,
       colliders := if components && s.disableColliders then seq(|v.colliders|, _ => enable) else v.colliders,
       colliders2D := if components && s.disableColliders then seq(|v.colliders2D|, _ => enable) else v.colliders2D,
       renderers := if components && s.disableRenderers then seq(|v.renderers|, _ => enable) else v.renderers,
       notified := v.notified + Notify(if enable then v.onAllocate else v.onDeallocate))
  }

  /** What OnAllocate may do: a TestItem draws a number from 1 to 99; a PoolableObject enables itself. */
  predicate AllocateEffect(before: ItemView, after: ItemView)
    ensures AllocateEffect(before, after) ==> after.TestItemView? == before.TestItemView?
    ensures AllocateEffect(before, after) && after.TestItemView? ==> after.number != TestItem.UNALLOCATED_NUMBER
  {
    if before.TestItemView? then
      after.TestItemView? && after.name == before.name && after.isDestroyed == before.isDestroyed &&
      1 <= after.number < 100
    else
      after == Toggled(before, true)
  }

  /** What OnDeallocate does: a TestItem resets its number; a PoolableObject disables itself. */
  function DeallocateEffect(v: ItemView): (r: ItemView)
    ensures r.TestItemView? == v.TestItemView?
    ensures v.TestItemView? ==> r.number == TestItem.UNALLOCATED_NUMBER && r.name == v.name && r.isDestroyed == v.isDestroyed
    ensures v.ObjectView? ==> r.settings == v.settings && r.owner == v.owner && (v.settings.disableObject ==> !r.active)
  {
    if v.TestItemView? then v.(number := TestItem.UNALLOCATED_NUMBER) else Toggled(v, false)
  }

  /** What Destroy does: a TestItem is marked destroyed; a PoolableObject drops its references. */
  function DestroyEffect(v: ItemView): ItemView
  {
    if v.TestItemView? then v.(isDestroyed := true)
    else v.(owner := null, cached := false, onAllocate := None, onDeallocate := None)
  }

  /**
   * Destroy marks a TestItem destroyed and makes a PoolableObject drop its
   * references, keeping what it shows; destroying twice is destroying once.
   */
  lemma DestroyEffectSpec(v: ItemView)
    ensures DestroyEffect(v).TestItemView? == v.TestItemView?
    ensures v.TestItemView? ==>
      DestroyEffect(v).isDestroyed && DestroyEffect(v).name == v.name && DestroyEffect(v).number == v.number
    ensures v.ObjectView? ==>
      var r := DestroyEffect(v);
      r.owner == null && !r.cached && r.onAllocate == None && r.onDeallocate == None &&
      r.active == v.active && r.colliders == v.colliders && r.colliders2D == v.colliders2D &&
      r.renderers == v.renderers && r.notified == v.notified
    ensures DestroyEffect(DestroyEffect(v)) == DestroyEffect(v)
  {
  }

  /**
   * What Destroy(destroyAllocated) does to a member that was allocated (`wasAllocated`) or
   * available: with the flag, every member is destroyed and an allocated one
   * is first deallocated; without it, an allocated member is orphaned untouched.
   */
  function DestroyedView(v: ItemView, destroyAllocated: bool, wasAllocated: bool): (r: ItemView)
    ensures !destroyAllocated && wasAllocated ==> r == v
    ensures destroyAllocated || !wasAllocated ==> DestroyEffect(r) == r
    ensures r.TestItemView? == v.TestItemView?
    ensures r.TestItemView? ==> (r.isDestroyed <==> destroyAllocated || !wasAllocated || v.isDestroyed)
  {
    if destroyAllocated then DestroyEffect(if wasAllocated then DeallocateEffect(v) else v)
    else if wasAllocated then v
    else DestroyEffect(v)
  }

  /** The observable state of a TestItem. */
  ghost function TestItemViewOf(t: TestItem): ItemView
    reads t
  {
    TestItemView(t.name, t.number, t.isDestroyed)
  }

  /** The observable state of a PoolableObject. */
  ghost function ObjectViewOf(p: PoolableObject): ItemView
    reads p
  {
    ObjectView(p.settings, p.owner, p.cached, p.active, p.colliders, p.colliders2D, p.renderers,
               p.onAllocate, p.onDeallocate, p.notified)
  }

  /** A reference to a poolable instance through the poolable contract. */
  datatype Poolable = TestItemRef(t: TestItem) | PoolableObjectRef(p: PoolableObject)
  {
    /** The heap object the instance's state lives in. */
    function Obj(): object
    {
      match this
      case TestItemRef(t) => t
      case PoolableObjectRef(p) => p
    }

    /** The allocate and deallocate callbacks can reach the components. */
    ghost predicate Ready()
      reads Obj()
    {
      TestItemRef? || p.cached
    }

    ghost function View(): ItemView
      reads Obj()
    {
      match this
      case TestItemRef(t) => TestItemViewOf(t)
      case PoolableObjectRef(p) => ObjectViewOf(p)
    }

    method Init(owner: AbstractPool)
      modifies Obj()
      ensures Ready() && View() == InitEffect(old(View()), owner)
    {
      match this
      case TestItemRef(t) => t.Init();
      case PoolableObjectRef(p) => p.Init(owner);
    }

    method OnAllocate()
      requires Ready()
      modifies Obj()
      ensures Ready() && AllocateEffect(old(View()), View())
    {
      match this
      case TestItemRef(t) => t.OnAllocate();
      case PoolableObjectRef(p) => p.OnAllocate();
    }

    method OnDeallocate()
      requires Ready()
      modifies Obj()
      ensures Ready() && View() == DeallocateEffect(old(View()))
    {
      match this
      case TestItemRef(t) => t.OnDeallocate();
      case PoolableObjectRef(p) => p.OnDeallocate();
    }

    method Destroy()
      modifies Obj()
      ensures View() == DestroyEffect(old(View()))
    {
      match this
      case TestItemRef(t) => t.Destroy();
      case PoolableObjectRef(p) => p.Destroy();
    }
  }

  // ----- generators -----

  /**
   * How the pool makes instances: the default generator constructs TestItems;
   * the template generator instantiates a prefab carrying a PoolableObject.
   */
  datatype Generator = DefaultGenerator | UnityGenerator(prefab: Template)
  {
    /** The instances this generator makes. */
    predicate Produces(x: Poolable)
    {
      if DefaultGenerator? then x.TestItemRef?
      else x.PoolableObjectRef? && x.p.settings == prefab.settings
    }

    /** The observable state of a newly made instance. */
    function FreshView(): ItemView
    {
      if DefaultGenerator? then TestItemView("", TestItem.UNALLOCATED_NUMBER, false)
      else ObjectView(prefab.settings, null, false, prefab.active,
                      prefab.colliders, prefab.colliders2D, prefab.renderers,
                      prefab.onAllocate, prefab.onDeallocate, [])
    }

    /** Every call makes a new instance, distinct from every existing one. */
    method CreateInstance() returns (x: Poolable)
      ensures fresh(x.Obj()) && Produces(x) && x.View() == FreshView()
    {
      if DefaultGenerator? {
        var t := new TestItem();
        x := TestItemRef(t);
      } else {
        var p := new PoolableObject.Instantiate(prefab);
        x := PoolableObjectRef(p);
      }
    }
  }

  // ----- the engine -----

  /** Distinct instances live in distinct objects. */
  lemma ObjectsApart(x: Poolable, y: Poolable)
    requires x != y
    ensures x.Obj() != y.Obj()
  {
  }

  class AbstractPool {
    const generator: Generator
    var pool: set<Poolable>
    var allocatedObjects: set<Poolable>
    var availableObjects: seq<Poolable>
    /** The three collections have been released (set to null). */
    var destroyed: bool
    /** Every callback the pool has fired, in order. */
    ghost var log: seq<Event<Poolable>>

    ghost function State(): State<Poolable>
      reads this
    {
      if destroyed then Destroyed else Live(pool, allocatedObjects, availableObjects)
    }

    /** The heap objects of the members. */
    ghost function Footprint(): set<object>
      reads this
    {
      set x | x in pool :: x.Obj()
    }

    /**
     * The partition invariant holds, a destroyed pool holds nothing, and every
     * member was made by the generator and has been initialised.
     */
    ghost predicate Valid()
      reads this, Footprint()
    {
      Inv(State()) &&
      (destroyed ==> pool == {} && allocatedObjects == {} && availableObjects == []) &&
      forall x | x in pool :: generator.Produces(x) && (x.PoolableObjectRef? ==> x.p.cached)
    }

    /** `new Pool<T>(initialSize)`: a pool over the generator, filled by InitializePool. */
    constructor (generator: Generator, initialSize: int)
      ensures Valid() && !destroyed && this.generator == generator
      ensures |availableObjects| == if initialSize > 0 then initialSize else 0
      ensures State() == Initialized(availableObjects)
      ensures log == Fire(Callback.Init, availableObjects)
      ensures forall x | x in pool :: fresh(x.Obj()) && x.View() == InitEffect(generator.FreshView(), this)
    {
      this.generator := generator;
      pool, allocatedObjects, availableObjects := {}, {}, [];
      destroyed := false;
      log := [];
      new;
      InitializePool(initialSize);
    }

    /** The number of instances the pool owns; after Destroy the collection is null. */
    function Size(): (r: Result<nat>)
      reads this
      ensures r == PoolModel.Size(State())
    {
      if destroyed then Err(NullReference) else Ok(|pool|)
    }

    /** The number of available instances, never more than Size. */
    function AvailableItems(): (r: Result<nat>)
      requires Valid()
      reads this, Footprint()
      ensures r == PoolModel.AvailableItems(State())
      ensures r.Ok? ==> Size().Ok? && r.value <= Size().value
    {
      AvailableWithinSize(State());
      if destroyed then Err(NullReference) else Ok(|availableObjects|)
    }

    /**
     * Creates the collections afresh and fills them with `initialSize` new
     * instances (none when it is not positive), each initialised once.
     */
    method InitializePool(initialSize: int)
      modifies this
      ensures Valid() && !destroyed
      ensures |availableObjects| == if initialSize > 0 then initialSize else 0
      ensures State() == Initialized(availableObjects)
      ensures log == old(log) + Fire(Callback.Init, availableObjects)
      ensures forall x | x in pool :: fresh(x.Obj()) && x.View() == InitEffect(generator.FreshView(), this)
    {
      var n := if initialSize > 0 then initialSize else 0;
      pool, allocatedObjects, availableObjects := {}, {}, [];
      destroyed := false;
      for i := 0 to n
        invariant Valid() && !destroyed && |availableObjects| == i
        invariant State() == Initialized(availableObjects)
        invariant log == old(log) + Fire(Callback.Init, availableObjects)
        invariant forall x | x in pool :: fresh(x.Obj()) && x.View() == InitEffect(generator.FreshView(), this)
      {
        ghost var q := availableObjects;
        ghost var x := CreateNewInstance();
        assert State() == Initialized(availableObjects) by {
          assert availableObjects == q + [x];
          assert availableObjects[..|availableObjects| - 1] == q;
          assert Initialized(availableObjects) == Created(Initialized(q), x);
        }
        assert log == old(log) + Fire(Callback.Init, availableObjects) by {
          assert availableObjects == q + [x];
          FireExtend(Callback.Init, old(log), log, q, x);
        }
      }
    }

    /** Adds one new instance from the generator to the pool and the tail of the queue, and initialises it. */
    method CreateNewInstance() returns (ghost x: Poolable)
      requires Valid() && !destroyed
      modifies this
      ensures Valid() && !destroyed
      ensures fresh(x.Obj()) && x !in old(pool)
      ensures State() == Created(old(State()), x)
      ensures log == old(log) + [Event(Callback.Init, x)]
      ensures x.View() == InitEffect(generator.FreshView(), this)
      ensures forall y | y in old(pool) :: y.View() == old(y.View())
    {
      ghost var s0 := State();
      var obj := generator.CreateInstance();
      assert obj.Obj() !in Footprint();
      assert obj !in pool;
      pool := pool + {obj};
      availableObjects := availableObjects + [obj];
      assert State() == Created(s0, obj);
      assert Inv(State()) by {
        CreatedKeepsInv(s0, obj);
      }
      obj.Init(this);
      log := log + [Event(Callback.Init, obj)];
      x := obj;
    }

    /**
     * Hands out the head of the queue, creating one instance first when the
     * queue is empty, and fires OnAllocate on it. Fails once destroyed.
     */
    method Acquire() returns (r: Result<Poolable>)
      requires Valid()
      modifies this, Footprint()
      ensures Valid()
      ensures old(destroyed) ==> r == Err(PoolDestroyed) && State() == old(State()) && log == old(log)
      ensures !old(destroyed) ==> r.Ok?
      ensures r.Ok? ==>
        var x := r.value;
        (old(availableObjects) == [] ==> fresh(x.Obj()) && x !in old(pool)) &&
        (old(availableObjects) != [] ==> x == old(availableObjects)[0]) &&
        PoolModel.Acquire(old(State()), x) == Ok((State(), x)) &&
        log == old(log) + (if old(availableObjects) == [] then [Event(Callback.Init, x)] else [])
                        + [Event(Callback.OnAllocate, x)] &&
        AllocateEffect(
          if old(availableObjects) == [] then InitEffect(generator.FreshView(), this) else old(x.View()),
          x.View())
      ensures forall y | y in old(pool) && (r.Err? || y != r.value) :: y.View() == old(y.View())
    {
      if destroyed {
        return Err(PoolDestroyed);
      }
      if |availableObjects| == 0 {
        ghost var created := CreateNewInstance();
      }
      var obj := AllocateHead();
      r := Ok(obj);
    }

    /** Dequeues the head of the queue, fires OnAllocate on it and records it as allocated. */
    method AllocateHead() returns (obj: Poolable)
      requires Valid() && !destroyed && availableObjects != []
      modifies this, Footprint()
      ensures Valid() && !destroyed
      ensures obj == old(availableObjects)[0] && (State(), obj) == Take(old(State()))
      ensures log == old(log) + [Event(Callback.OnAllocate, obj)]
      ensures AllocateEffect(old(obj.View()), obj.View())
      ensures forall y | y in old(pool) && y != obj :: y.View() == old(y.View())
    {
      ghost var s0 := State();
      obj := availableObjects[0];
      assert obj in pool;
      availableObjects := availableObjects[1..];
      obj.OnAllocate();
      allocatedObjects := allocatedObjects + {obj};
      log := log + [Event(Callback.OnAllocate, obj)];
      assert (State(), obj) == Take(s0);
      assert Inv(State()) by {
        TakeKeepsInv(s0);
      }
    }

    /**
     * Takes an allocated instance back: fires OnDeallocate and appends it to
     * the queue. An available member is ignored; a foreign object is refused.
     */
    method Recycle(obj: Poolable) returns (r: Outcome)
      requires Valid()
      modifies this, Footprint()
      ensures Valid()
      ensures PoolModel.Recycle(old(State()), obj).Err? ==>
        r == Fail(PoolModel.Recycle(old(State()), obj).error) && State() == old(State())
      ensures PoolModel.Recycle(old(State()), obj).Ok? ==>
        r == Pass && State() == PoolModel.Recycle(old(State()), obj).value
      ensures obj in old(allocatedObjects) ==>
        r == Pass && !destroyed && pool == old(pool) &&
        allocatedObjects == old(allocatedObjects) - {obj} && availableObjects == old(availableObjects) + [obj]
      ensures log == old(log) + (if obj in old(allocatedObjects) then [Event(Callback.OnDeallocate, obj)] else [])
      ensures forall y | y in old(pool) ::
        y.View() == if y == obj && y in old(allocatedObjects) then DeallocateEffect(old(y.View())) else old(y.View())
    {
      ghost var s0 := State();
      if destroyed {
        return Fail(PoolDestroyed);
      }
      if obj in pool {
        if obj in allocatedObjects {
          obj.OnDeallocate();
          log := log + [Event(Callback.OnDeallocate, obj)];
          allocatedObjects := allocatedObjects - {obj};
          availableObjects := availableObjects + [obj];
        }
        r := Pass;
      } else {
        r := Fail(ForeignObject);
      }
      RecycleSpec(s0, obj);
    }
  
    /**
     * Recycles every allocated instance, in the order of a snapshot of the
     * allocated set, then clears the allocated set. Fails once destroyed.
     */
    method RecycleAll() returns (r: Outcome, ghost snapshot: seq<Poolable>)
      requires Valid()
      modifies this, Footprint()
      ensures Valid()
      ensures old(destroyed) ==> r == Fail(PoolDestroyed) && State() == old(State()) && log == old(log)
      ensures !old(destroyed) ==>
        r == Pass && Distinct(snapshot) && Elements(snapshot) == old(allocatedObjects) &&
        PoolModel.RecycleAll(old(State()), snapshot) == Ok(State()) &&
        log == old(log) + Fire(Callback.OnDeallocate, snapshot)
      ensures forall y | y in old(pool) ::
        y.View() == if y in old(allocatedObjects) then DeallocateEffect(old(y.View())) else old(y.View())
    {
      if destroyed {
        return Fail(PoolDestroyed), [];
      }
      ghost var s0 := State();
      ghost var items := RecycleEach();
      allocatedObjects := {};
      snapshot := items;
      r := Pass;
      assert PoolModel.RecycleAll(s0, items) == Ok(State()) by {
        RecycleAllSpec(s0, items);
      }
    }

    /**
     * Recycles the instances of a copy of the allocated set one after another;
     * `snapshot` is the order in which they were taken.
     */
    method RecycleEach() returns (ghost snapshot: seq<Poolable>)
      requires Valid() && !destroyed
      modifies this, Footprint()
      ensures Valid() && !destroyed && pool == old(pool) && allocatedObjects == {}
      ensures Distinct(snapshot) && Elements(snapshot) == old(allocatedObjects)
      ensures availableObjects == old(availableObjects) + snapshot
      ensures log == old(log) + Fire(Callback.OnDeallocate, snapshot)
      ensures forall y | y in old(pool) ::
        y.View() == if y in old(allocatedObjects) then DeallocateEffect(old(y.View())) else old(y.View())
    {
      var rest := allocatedObjects;
      snapshot := [];
      while rest != {}
        invariant Valid() && !destroyed && pool == old(pool) && allocatedObjects == rest
        invariant Distinct(snapshot) && Elements(snapshot) !! rest && Elements(snapshot) + rest == old(allocatedObjects)
        invariant availableObjects == old(availableObjects) + snapshot
        invariant log == old(log) + Fire(Callback.OnDeallocate, snapshot)
        invariant forall y | y in old(pool) ::
          y.View() == if y in Elements(snapshot) then DeallocateEffect(old(y.View())) else old(y.View())
        decreases rest
      {
        var x :| x in rest;
        assert Distinct(snapshot + [x]) && Elements(snapshot + [x]) == Elements(snapshot) + {x} by {
          DistinctSnoc(snapshot, x);
        }
        var _ := Recycle(x);
        FireExtend(Callback.OnDeallocate, old(log), log, snapshot, x);
        rest := rest - {x};
        snapshot := snapshot + [x];
      }
    }
  
    /**
     * Releases the pool. With `destroyAllocatedObjects`, fires OnDeallocate on
     * every allocated instance and then Destroy on every member; without it,
     * dequeues and destroys the available instances and orphans the allocated
     * ones. Then the collections are released. Fails once destroyed.
     */
    method Destroy(destroyAllocatedObjects: bool := true)
      returns (r: Outcome, ghost deallocated: seq<Poolable>, ghost destroyedItems: seq<Poolable>)
      requires Valid()
      modifies this, Footprint()
      ensures Valid()
      ensures old(destroyed) ==> r == Fail(PoolDestroyed) && State() == old(State()) && log == old(log)
      ensures !old(destroyed) ==>
        r == Pass && DestroyPool(old(State()), destroyAllocatedObjects) == Ok(State()) &&
        Distinct(deallocated) &&
        Elements(deallocated) == (if destroyAllocatedObjects then old(allocatedObjects) else {}) &&
        Distinct(destroyedItems) &&
        Elements(destroyedItems) == DestroyedBy(old(State()), destroyAllocatedObjects) &&
        (!destroyAllocatedObjects ==> destroyedItems == old(availableObjects)) &&
        log == old(log) + Fire(Callback.OnDeallocate, deallocated) + Fire(Callback.Destroy, destroyedItems)
      ensures forall y | y in old(pool) ::
        y.View() == DestroyedView(old(y.View()), destroyAllocatedObjects, y in old(allocatedObjects))
    {
      if destroyed {
        return Fail(PoolDestroyed), [], [];
      }
      if destroyAllocatedObjects {
        deallocated := DeallocateEach();
        destroyedItems := DestroyEach();
      } else {
        deallocated := [];
        destroyedItems := DestroyAvailable();
        assert Fire(Callback.OnDeallocate, deallocated) == [];
      }
      pool, allocatedObjects, availableObjects := {}, {}, [];
      destroyed := true;
      r := Pass;
    }

    /** Fires OnDeallocate on the instances of a copy of the allocated set, in the order `order`. */
    method DeallocateEach() returns (ghost order: seq<Poolable>)
      requires !destroyed && allocatedObjects <= pool && forall x | x in allocatedObjects :: x.Ready()
      modifies this, Footprint()
      ensures State() == old(State())
      ensures Distinct(order) && Elements(order) == allocatedObjects
      ensures log == old(log) + Fire(Callback.OnDeallocate, order)
      ensures forall y | y in pool ::
        y.View() == if y in allocatedObjects then DeallocateEffect(old(y.View())) else old(y.View())
    {
      var rest := allocatedObjects;
      order := [];
      while rest != {}
        invariant Distinct(order) && Elements(order) !! rest && Elements(order) + rest == allocatedObjects
        modifies this`log, Footprint()
        invariant forall x | x in rest :: x.Ready()
        invariant log == old(log) + Fire(Callback.OnDeallocate, order)
        invariant forall y | y in pool ::
          y.View() == if y in Elements(order) then DeallocateEffect(old(y.View())) else old(y.View())
        decreases rest
      {
        var x :| x in rest;
        assert Distinct(order + [x]) && Elements(order + [x]) == Elements(order) + {x} by {
          DistinctSnoc(order, x);
        }
        DeallocateLogged(x);
        assert log == old(log) + Fire(Callback.OnDeallocate, order + [x]) by {
          FireExtend(Callback.OnDeallocate, old(log), log, order, x);
        }
        rest := rest - {x};
        order := order + [x];
      }
    }

    /** Fires OnDeallocate on one member and records it in the log; no other member changes. */
    method DeallocateLogged(x: Poolable)
      requires x in pool && x.Ready()
      modifies this`log, x.Obj()
      ensures log == old(log) + [Event(Callback.OnDeallocate, x)]
      ensures x.View() == DeallocateEffect(old(x.View()))
      ensures forall y | y in pool && y != x :: y.View() == old(y.View()) && (y.Ready() <==> old(y.Ready()))
    {
      forall y | y in pool && y != x
        ensures y.Obj() != x.Obj()
      {
        ObjectsApart(y, x);
      }
      x.OnDeallocate();
      log := log + [Event(Callback.OnDeallocate, x)];
    }

    /** Fires Destroy on the members of a copy of the pool, in the order `order`. */
    method DestroyEach() returns (ghost order: seq<Poolable>)
      requires !destroyed
      modifies this, Footprint()
      ensures State() == old(State())
      ensures Distinct(order) && Elements(order) == pool
      ensures log == old(log) + Fire(Callback.Destroy, order)
      ensures forall y | y in old(pool) :: y.View() == DestroyEffect(old(y.View()))
    {
      var rest := pool;
      order := [];
      while rest != {}
        invariant Distinct(order) && Elements(order) !! rest && Elements(order) + rest == pool
        modifies this`log, Footprint()
        invariant log == old(log) + Fire(Callback.Destroy, order)
        invariant forall y | y in old(pool) ::
          y.View() == if y in Elements(order) then DestroyEffect(old(y.View())) else old(y.View())
        decreases rest
      {
        var x :| x in rest;
        assert Distinct(order + [x]) && Elements(order + [x]) == Elements(order) + {x} by {
          DistinctSnoc(order, x);
        }
        DestroyLogged(x);
        assert log == old(log) + Fire(Callback.Destroy, order + [x]) by {
          FireExtend(Callback.Destroy, old(log), log, order, x);
        }
        rest := rest - {x};
        order := order + [x];
      }
    }

    /** Fires Destroy on one member and records it in the log; no other member changes. */
    method DestroyLogged(x: Poolable)
      requires x in pool
      modifies this`log, x.Obj()
      ensures log == old(log) + [Event(Callback.Destroy, x)]
      ensures x.View() == DestroyEffect(old(x.View()))
      ensures forall y | y in pool && y != x :: y.View() == old(y.View())
    {
      forall y | y in pool && y != x
        ensures y.Obj() != x.Obj()
      {
        ObjectsApart(y, x);
      }
      x.Destroy();
      log := log + [Event(Callback.Destroy, x)];
    }

    /** Dequeues and destroys the available instances until the queue is empty. */
    method DestroyAvailable() returns (ghost order: seq<Poolable>)
      requires !destroyed && Distinct(availableObjects) && Elements(availableObjects) <= pool
      modifies this, Footprint()
      ensures pool == old(pool) && allocatedObjects == old(allocatedObjects) && !destroyed
      ensures availableObjects == [] && order == old(availableObjects)
      ensures log == old(log) + Fire(Callback.Destroy, order)
      ensures forall y | y in pool ::
        y.View() == if y in Elements(order) then DestroyEffect(old(y.View())) else old(y.View())
    {
      var queue := availableObjects;
      order := [];
      while queue != []
        invariant old(availableObjects) == order + queue
        modifies this`log, Footprint()
        invariant log == old(log) + Fire(Callback.Destroy, order)
        invariant forall y | y in pool ::
          y.View() == if y in Elements(order) then DestroyEffect(old(y.View())) else old(y.View())
        decreases |queue|
      {
        var x := queue[0];
        assert x !in Elements(order) && old(availableObjects) == (order + [x]) + queue[1..] by {
          HeadNotTaken(old(availableObjects), order, queue);
        }
        assert x in pool;
        queue := queue[1..];
        DestroyLogged(x);
        assert log == old(log) + Fire(Callback.Destroy, order + [x]) by {
          FireExtend(Callback.Destroy, old(log), log, order, x);
        }
        ElementsSnoc(order, x);
        order := order + [x];
      }
      availableObjects := queue;
    }
  }
}
