/**
 * Platform::Semaphore (Platform/Semaphore_Win32.cpp) as the counter the Win32
 * semaphore object holds. Blocking in Decrement becomes the precondition that
 * a permit is available; a failing Win32 call reports failure and changes
 * nothing, which is what ReleaseSemaphore does when the count would pass the
 * maximum the object was created with.
 */
module Platform {

  /** The maximum count both CreateSemaphore calls pass. */
  const MaximumCount: nat := 0x7fff_ffff

  class Semaphore {
    var count: nat

    ghost predicate Valid()
      reads this
    {
      count <= MaximumCount
    }

    /** CreateSemaphore(NULL, 0, 0x7fffffff, NULL). */
    constructor ()
      ensures Valid() && count == 0
    {
      count := 0;
    }

    /** ReleaseSemaphore(handle, 1, ...); `ok` is its result, false past the maximum. */
    method Increment() returns (ok: bool)
      requires Valid()
      modifies this
      ensures Valid()
      ensures ok <==> old(count) < MaximumCount
      ensures count == if ok then old(count) + 1 else old(count)
    {
      ok := count < MaximumCount;
      if ok {
        count := count + 1;
      }
    }

    /** WaitForSingleObject(handle, INFINITE): consumes one permit once one is there. */
    method Decrement()
      requires Valid() && count > 0
      modifies this
      ensures Valid()
      ensures count == old(count) - 1
    {
      count := count - 1;
    }

    /** Closes the handle and creates a fresh semaphore in its place. */
    method Reset()
      requires Valid()
      modifies this
      ensures Valid() && count == 0
    {
      count := 0;
    }
  }

  /**
   * The count a run of `n` Increment calls leaves, starting from `c`: each
   * call adds one below the maximum and fails at it. The run saturates: the
   * result is c + n capped at the maximum.
   */
  function CountAfterIncrements(c: nat, n: nat): (r: nat)
    requires c <= MaximumCount
    ensures r <= MaximumCount
    ensures c + n <= MaximumCount ==> r == c + n
    ensures c + n > MaximumCount ==> r == MaximumCount
    decreases n
  {
    if n == 0 then c
    else CountAfterIncrements(if c < MaximumCount then c + 1 else c, n - 1)
  }
}
