/**
 * The unit tests' poolable: a name the caller may set, a number that is a
 * random value while allocated and a sentinel while not, and a destroyed flag.
 */
module TestItems {

  class TestItem {
    static const UNALLOCATED_NUMBER: int := -1

    var name: string
    var number: int
    var isDestroyed: bool

    /** A fresh item is unnamed, unallocated and not destroyed. */
    constructor ()
      ensures name == "" && number == UNALLOCATED_NUMBER && !isDestroyed
    {
      name := "";
      number := UNALLOCATED_NUMBER;
      isDestroyed := false;
    }

    /** Marks the item destroyed; calling it again changes nothing more. */
    method Destroy()
      modifies this
      ensures isDestroyed
      ensures name == old(name) && number == old(number)
    {
      isDestroyed := true;
    }

    /** The item ignores its owner: initialisation changes no field. */
    method Init()
      ensures unchanged(this)
    {
    }

    /** Draws the number from 1 to 99 (Random.Range(1, 100)); never the sentinel. */
    method OnAllocate()
      modifies this
      ensures 1 <= number < 100 && number != UNALLOCATED_NUMBER
      ensures name == old(name) && isDestroyed == old(isDestroyed)
    {
      var drawn :| 1 <= drawn < 100;
      number := drawn;
    }

    /** Resets the number to the sentinel. */
    method OnDeallocate()
      modifies this
      ensures number == UNALLOCATED_NUMBER
      ensures name == old(name) && isDestroyed == old(isDestroyed)
    {
      number := UNALLOCATED_NUMBER;
    }
  }
}
