/**
 * The repository's unit and integration tests, as scenarios over the engine:
 * each builds a pool, drives it as the test does, and states what the test
 * observes as a postcondition that follows from the engine's contracts.
 */
module Scenarios {
  import opened PoolModel
  import opened TestItems
  import opened UPool

  /**
   * SizingTest: a pool of three keeps its size while its three instances are
   * handed out, and grows by one on the fourth acquisition.
   */
  method SizingScenario() returns (initial: Result<nat>, drained: Result<nat>, grown: Result<nat>)
    ensures initial == Ok(3) && drained == Ok(3) && grown == Ok(4)
  {
    var pool := new AbstractPool(DefaultGenerator, 3);
    assert |pool.pool| == 3 by {
      InitializedShape(pool.availableObjects);
    }
    initial := pool.Size();
    for i := 0 to 3
      invariant pool.Valid() && !pool.destroyed
      invariant |pool.pool| == 3 && |pool.availableObjects| == 3 - i
      invariant forall x | x in pool.pool :: fresh(x.Obj())
    {
      ghost var s0 := pool.State();
      var r := pool.Acquire();
      assert |pool.pool| == 3 && |pool.availableObjects| == 3 - (i + 1) by {
        AcquireSpec(s0, r.value);
      }
    }
    drained := pool.Size();
    ghost var s0 := pool.State();
    var r := pool.Acquire();
    assert |pool.pool| == 4 by {
      AcquireSpec(s0, r.value);
    }
    grown := pool.Size();
  }

  /** AllocationTest: an acquired TestItem holds a drawn number, never UNALLOCATED_NUMBER. */
  method AllocationScenario() returns (number: int)
    ensures number != TestItem.UNALLOCATED_NUMBER && 1 <= number < 100
  {
    var pool := new AbstractPool(DefaultGenerator, 1);
    var r := pool.Acquire();
    var item := r.value;
    assert item in pool.pool;
    number := item.t.number;
  }

  /** DeallocationTest: a recycled TestItem is back at UNALLOCATED_NUMBER. */
  method DeallocationScenario() returns (number: int)
    ensures number == TestItem.UNALLOCATED_NUMBER
  {
    var pool := new AbstractPool(DefaultGenerator, 1);
    var r := pool.Acquire();
    var item := r.value;
    assert item in pool.allocatedObjects;
    var _ := pool.Recycle(item);
    number := item.t.number;
  }

  /**
   * RecycleTest: in a pool of one, the instance acquired after a recycle is the
   * recycled one, with the name the client gave it.
   */
  method RecycleScenario() returns (first: Poolable, second: Poolable, name: string)
    ensures second == first && name == "RecycledObject"
  {
    var pool := new AbstractPool(DefaultGenerator, 1);
    var r := pool.Acquire();
    first := r.value;
    assert first in pool.allocatedObjects && pool.availableObjects == [];
    first.t.name := "RecycledObject";
    var _ := pool.Recycle(first);
    r := pool.Acquire();
    second := r.value;
    name := second.t.name;
  }

  /** DestroyAllItemsTest: Destroy(true) destroys the available and the allocated instance alike. */
  method DestroyAllScenario() returns (item1Destroyed: bool, item2Destroyed: bool)
    ensures item1Destroyed && item2Destroyed
  {
    var pool := new AbstractPool(DefaultGenerator, 2);
    var r1 := pool.Acquire();
    var r2 := pool.Acquire();
    var item1, item2 := r1.value, r2.value;
    assert item1 in pool.allocatedObjects && item2 in pool.allocatedObjects && item1 != item2;
    assert item1.TestItemRef? && item2.TestItemRef?;
    var _ := pool.Recycle(item1);
    assert item1 in pool.pool && item2 in pool.allocatedObjects && item1 !in pool.allocatedObjects;
    ghost var v1, v2 := item1.View(), item2.View();
    var _, _, _ := pool.Destroy();
    assert item1.View() == DestroyEffect(v1) && item2.View() == DestroyEffect(DeallocateEffect(v2));
    item1Destroyed, item2Destroyed := item1.t.isDestroyed, item2.t.isDestroyed;
  }

  /** DestroyUnallocatedItemsTest: Destroy(false) destroys the available instance and orphans the allocated one. */
  method DestroyUnallocatedScenario() returns (item1Destroyed: bool, item2Destroyed: bool)
    ensures item1Destroyed && !item2Destroyed
  {
    var pool := new AbstractPool(DefaultGenerator, 2);
    var r1 := pool.Acquire();
    var r2 := pool.Acquire();
    var item1, item2 := r1.value, r2.value;
    assert item1 in pool.allocatedObjects && item2 in pool.allocatedObjects && item1 != item2;
    assert item1.TestItemRef? && item2.TestItemRef? && !item2.View().isDestroyed;
    var _ := pool.Recycle(item1);
    assert item1 in pool.pool && item2 in pool.allocatedObjects && item1 !in pool.allocatedObjects;
    ghost var v1, v2 := item1.View(), item2.View();
    assert !v2.isDestroyed;
    var _, _, _ := pool.Destroy(false);
    assert item1.View() == DestroyEffect(v1) && item2.View() == v2;
    item1Destroyed, item2Destroyed := item1.t.isDestroyed, item2.t.isDestroyed;
  }

  /**
   * DisableObjectTest: with `disableObject`, acquiring activates the object and
   * recycling deactivates it; its colliders and renderers are left as they were.
   */
  method DisableObjectScenario(prefab: Template)
    returns (activeAllocated: bool, activeRecycled: bool, colliders: seq<bool>, renderers: seq<bool>)
    requires prefab.settings.disableObject
    ensures activeAllocated && !activeRecycled
    ensures colliders == prefab.colliders && renderers == prefab.renderers
  {
    var pool := new AbstractPool(UnityGenerator(prefab), 1);
    var r := pool.Acquire();
    var item := r.value;
    assert item in pool.allocatedObjects;
    activeAllocated := item.p.active;
    var _ := pool.Recycle(item);
    activeRecycled := item.p.active;
    colliders, renderers := item.p.colliders, item.p.renderers;
  }

  /**
   * A component that recycles itself through its owner is taken back exactly
   * as the pool's own Recycle would take it: with `disableObject`, it ends
   * inactive and available again.
   */
  method SelfRecycleScenario(prefab: Template) returns (o: Outcome, activeRecycled: bool, available: nat)
    requires prefab.settings.disableObject
    ensures o == Pass && !activeRecycled && available == 1
  {
    var pool := new AbstractPool(UnityGenerator(prefab), 1);
    var r := pool.Acquire();
    var item := r.value;
    assert item in pool.allocatedObjects && item.PoolableObjectRef? && item.p.owner == pool;
    o := item.p.Recycle();
    activeRecycled := item.p.active;
    available := |pool.availableObjects|;
  }

  /**
   * DisableCollidersTest: with only `disableColliders`, a recycled object stays
   * as active as the prefab, every collider is disabled and the renderers are untouched.
   */
  method DisableCollidersScenario(prefab: Template)
    returns (active: bool, colliders: seq<bool>, colliders2D: seq<bool>, renderers: seq<bool>)
    requires prefab.settings == Settings(false, true, false)
    ensures active == prefab.active && renderers == prefab.renderers
    ensures |colliders| == |prefab.colliders| && forall i | 0 <= i < |colliders| :: !colliders[i]
    ensures |colliders2D| == |prefab.colliders2D| && forall i | 0 <= i < |colliders2D| :: !colliders2D[i]
  {
    var pool := new AbstractPool(UnityGenerator(prefab), 1);
    var r := pool.Acquire();
    var item := r.value;
    assert item in pool.allocatedObjects;
    var _ := pool.Recycle(item);
    active, colliders, colliders2D, renderers := item.p.active, item.p.colliders, item.p.colliders2D, item.p.renderers;
  }

  /**
   * DisableRenderersTest: with only `disableRenderers`, a recycled object stays
   * as active as the prefab, every renderer is disabled and the colliders are untouched.
   */
  method DisableRenderersScenario(prefab: Template)
    returns (active: bool, colliders: seq<bool>, colliders2D: seq<bool>, renderers: seq<bool>)
    requires prefab.settings == Settings(false, false, true)
    ensures active == prefab.active
    ensures colliders == prefab.colliders && colliders2D == prefab.colliders2D
    ensures |renderers| == |prefab.renderers| && forall i | 0 <= i < |renderers| :: !renderers[i]
  {
    var pool := new AbstractPool(UnityGenerator(prefab), 1);
    var r := pool.Acquire();
    var item := r.value;
    assert item in pool.allocatedObjects;
    var _ := pool.Recycle(item);
    active, colliders, colliders2D, renderers := item.p.active, item.p.colliders, item.p.colliders2D, item.p.renderers;
  }

  /**
   * AllocationTest (integration): acquiring a copy of a prefab whose component
   * subscribes an allocate action runs that action once.
   */
  method AllocateActionScenario(prefab: Template, listener: Listener) returns (notified: seq<Listener>)
    requires prefab.onAllocate == Some(listener)
    ensures notified == [listener]
  {
    var pool := new AbstractPool(UnityGenerator(prefab), 1);
    var r := pool.Acquire();
    var item := r.value;
    assert item in pool.allocatedObjects;
    notified := item.p.notified;
  }

  /**
   * DeallocationTest (integration): recycling a copy of a prefab whose
   * component subscribes a deallocate action runs that action once, after the
   * allocate action if there is one.
   */
  method DeallocateActionScenario(prefab: Template, listener: Listener) returns (notified: seq<Listener>)
    requires prefab.onDeallocate == Some(listener)
    ensures notified == Notify(prefab.onAllocate) + [listener]
  {
    var pool := new AbstractPool(UnityGenerator(prefab), 1);
    var r := pool.Acquire();
    var item := r.value;
    assert item in pool.allocatedObjects && item.PoolableObjectRef?;
    assert item.p.notified == Notify(prefab.onAllocate) && item.p.onDeallocate == Some(listener);
    var _ := pool.Recycle(item);
    notified := item.p.notified;
  }
}
