/**
 * The work-queue bookkeeping of Luna::ThumbnailLoader
 * (Utilities/Luna/Browser/ThumbnailLoader.cpp): a duplicate-free ordered queue
 * of asset files, a counting semaphore that signals the loader thread once per
 * queued file, a quit flag, and the results the loader raises. The texture
 * loading of the thread body is not modelled; one thread iteration is the
 * dequeue step that precedes it.
 */
module Luna {
  import opened OrderedSets
  import opened Platform

  datatype AssetFile = AssetFile(path: string)

  /** The arguments of one m_Result event. */
  datatype ResultArgs = ResultArgs(file: AssetFile, cancelled: bool)

  /** What one iteration of the loader thread does after its Decrement. */
  datatype WorkerStep =
    | Quit                       // m_Quit was set: leave the thread loop
    | EmptyQueue                 // woken with nothing queued: `continue`
    | Dequeued(args: ResultArgs) // the front file was taken and its result raised

  // ----- specification of Load -----

  /** The queue the reverse loop of Load builds: each file is removed and prepended, last file first. */
  function LoadedQueue(queue: seq<AssetFile>, files: seq<AssetFile>): seq<AssetFile>
    decreases |files|
  {
    if files == [] then queue
    else [files[0]] + Without(LoadedQueue(queue, files[1..]), files[0])
  }

  /** The distinct elements of `files` in the order of their first occurrence. */
  function Distinct(files: seq<AssetFile>): seq<AssetFile>
  {
    if files == [] then [] else [files[0]] + Without(Distinct(files[1..]), files[0])
  }

  /** The elements of `queue` that are not in `files`, in their order. */
  function Remaining(queue: seq<AssetFile>, files: seq<AssetFile>): seq<AssetFile>
  {
    if queue == [] then []
    else (if queue[0] in files then [] else [queue[0]]) + Remaining(queue[1..], files)
  }

  /** The files of `files` that are not queued yet. */
  ghost function NewFiles(queue: seq<AssetFile>, files: seq<AssetFile>): set<AssetFile>
  {
    set f | f in files && f !in queue
  }

  /** One cancelled result per file, in order. */
  function Cancellations(files: seq<AssetFile>): (r: seq<ResultArgs>)
    ensures |r| == |files|
    ensures forall k :: 0 <= k < |files| ==> r[k] == ResultArgs(files[k], true)
  {
    if files == [] then [] else [ResultArgs(files[0], true)] + Cancellations(files[1..])
  }

  lemma {:induction false} RemainingWithout(queue: seq<AssetFile>, f: AssetFile, rest: seq<AssetFile>)
    ensures Without(Remaining(queue, rest), f) == Remaining(queue, [f] + rest)
  {
    if queue != [] {
      RemainingWithout(queue[1..], f, rest);
      var head := if queue[0] in rest then [] else [queue[0]];
      WithoutConcat(head, Remaining(queue[1..], rest), f);
    }
  }

  /**
   * After Load(files) the queue holds the distinct files of `files` in order
   * of first occurrence, followed by the previously queued files that are not
   * in `files`, in their old order.
   */
  lemma {:induction false} LoadedQueueOrder(queue: seq<AssetFile>, files: seq<AssetFile>)
    ensures LoadedQueue(queue, files) == Distinct(files) + Remaining(queue, files)
    decreases |files|
  {
    if files == [] {
      assert Remaining(queue, []) == queue by { RemainingNone(queue); }
    } else {
      var f, rest := files[0], files[1..];
      assert files == [f] + rest;
      LoadedQueueOrder(queue, rest);
      WithoutConcat(Distinct(rest), Remaining(queue, rest), f);
      RemainingWithout(queue, f, rest);
    }
  }

  lemma {:induction false} RemainingNone(queue: seq<AssetFile>)
    ensures Remaining(queue, []) == queue
  {
    if queue != [] {
      RemainingNone(queue[1..]);
    }
  }

  /** The queue never holds a file twice, and holds exactly the old and the loaded files. */
  lemma {:induction false} LoadedQueueNoDuplicates(queue: seq<AssetFile>, files: seq<AssetFile>)
    requires NoDuplicates(queue)
    ensures NoDuplicates(LoadedQueue(queue, files))
    ensures forall f :: f in LoadedQueue(queue, files) <==> f in queue || f in files
    decreases |files|
  {
    if files != [] {
      LoadedQueueNoDuplicates(queue, files[1..]);
      var r := Without(LoadedQueue(queue, files[1..]), files[0]);
      WithoutKeepsNoDuplicates(LoadedQueue(queue, files[1..]), files[0]);
      assert forall f :: f in files <==> f == files[0] || f in files[1..] by {
        assert files == [files[0]] + files[1..];
      }
    }
  }

  /** Re-loading a file that is already queued only moves it to the front. */
  lemma ReloadMovesToFront(queue: seq<AssetFile>, f: AssetFile)
    requires NoDuplicates(queue) && f in queue
    ensures LoadedQueue(queue, [f]) == [f] + Without(queue, f)
    ensures |LoadedQueue(queue, [f])| == |queue|
  {
    assert [f][1..] == [];
    WithoutLength(queue, f);
  }

  /** Load grows the queue by exactly the number of files that were not queued. */
  lemma {:induction false} LoadedQueueGrowth(queue: seq<AssetFile>, files: seq<AssetFile>)
    requires NoDuplicates(queue)
    ensures |LoadedQueue(queue, files)| == |queue| + |NewFiles(queue, files)|
    decreases |files|
  {
    if files != [] {
      var f, rest := files[0], files[1..];
      var before := LoadedQueue(queue, rest);
      LoadedQueueGrowth(queue, rest);
      LoadedQueueNoDuplicates(queue, rest);
      WithoutLength(before, f);
      assert forall g :: g in files <==> g == f || g in rest by { assert files == [f] + rest; }
      if f in before {
        assert NewFiles(queue, files) == NewFiles(queue, rest);
      } else {
        assert NewFiles(queue, files) == NewFiles(queue, rest) + {f};
      }
    }
  }

  /** One iteration of Stop's loop: the front file moves from the queue to the cancelled files. */
  lemma DrainStep(drained: seq<AssetFile>, queue: seq<AssetFile>)
    requires NoDuplicates(queue) && queue != []
    ensures Without(queue, queue[0]) == queue[1..] && NoDuplicates(queue[1..])
    ensures drained + queue == (drained + [queue[0]]) + queue[1..]
    ensures Cancellations(drained + [queue[0]]) == Cancellations(drained) + [ResultArgs(queue[0], true)]
  {
    WithoutFront(queue);
    WithoutKeepsNoDuplicates(queue, queue[0]);
  }

  // ----- the loader -----

  class ThumbnailLoader {
    var queue: seq<AssetFile>      // m_FileQueue
    const signal: Semaphore        // m_Signal
    var quit: bool                 // m_Quit
    var raised: seq<ResultArgs>    // the m_Result events raised so far

    ghost predicate Valid()
      reads this, signal
    {
      NoDuplicates(queue) && signal.Valid()
    }

    /** The semaphore's count equals the number of queued files. */
    ghost predicate Bookkept()
      reads this, signal
    {
      signal.count == |queue|
    }

    /** The constructor starts the thread; here: an empty queue and a fresh semaphore. */
    constructor ()
      ensures Valid() && Bookkept() && fresh(signal)
      ensures queue == [] && !quit && raised == []
    {
      queue := [];
      signal := new Semaphore();
      quit := false;
      raised := [];
    }

    /**
     * Queues `files` at the front, first file first, and signals once per file
     * that was not already queued. The count stays equal to the queue length
     * as long as the queue fits the semaphore's maximum.
     */
    method Load(files: seq<AssetFile>)
      requires Valid()
      modifies this, signal
      ensures Valid()
      ensures queue == LoadedQueue(old(queue), files)
      ensures signal.count == CountAfterIncrements(old(signal.count), |NewFiles(old(queue), files)|)
      ensures old(Bookkept()) && |queue| <= MaximumCount ==> Bookkept()
      ensures quit == old(quit) && raised == old(raised)
    {
      var i := |files|;
      while i > 0
        invariant 0 <= i <= |files|
        invariant Valid()
        invariant queue == LoadedQueue(old(queue), files[i..])
        invariant |queue| >= |old(queue)|
        invariant signal.count == CountAfterIncrements(old(signal.count), |queue| - |old(queue)|)
        invariant quit == old(quit) && raised == old(raised)
      {
        i := i - 1;
        var file := files[i];
        var signalNew := file !in queue;
        WithoutLength(queue, file);
        WithoutKeepsNoDuplicates(queue, file);
        queue := Without(queue, file);
        queue := [file] + queue;
        assert files[i..][1..] == files[i + 1..];
        if signalNew {
          var _ := signal.Increment();
        }
      }
      LoadedQueueGrowth(old(queue), files);
    }

    /**
     * Cancels all queued work: one cancelled result per queued file, front
     * to back, then an empty queue and a reset semaphore. With nothing queued
     * it does nothing at all.
     */
    method Stop()
      requires Valid()
      modifies this, signal
      ensures Valid() && queue == []
      ensures old(queue) != [] ==> Bookkept()
      ensures old(queue) == [] ==> Bookkept() == old(Bookkept())
      ensures raised == old(raised) + Cancellations(old(queue))
      ensures signal.count == if old(queue) == [] then old(signal.count) else 0
      ensures quit == old(quit)
    {
      if queue == [] {
        return;
      }
      CancelQueued();
      signal.Reset();
    }

    /** Stop's loop: raises a cancelled result for the front file and removes it, until the queue is empty. */
    method CancelQueued()
      requires NoDuplicates(queue)
      modifies this`queue, this`raised
      ensures queue == [] && raised == old(raised) + Cancellations(old(queue))
    {
      ghost var drained: seq<AssetFile> := [];
      while queue != []
        invariant NoDuplicates(queue)
        invariant old(queue) == drained + queue
        invariant raised == old(raised) + Cancellations(drained)
        decreases |queue|
      {
        var args := ResultArgs(queue[0], true);
        raised := raised + [args];
        DrainStep(drained, queue);
        drained := drained + [args.file];
        queue := Without(queue, args.file);
      }
      assert drained == old(queue);
    }

    /**
     * One iteration of the loader thread up to the texture work: wait for a
     * permit, leave on quit, otherwise take the front file and raise an
     * uncancelled result for it.
     */
    method Step() returns (step: WorkerStep)
      requires Valid() && signal.count > 0
      modifies this, signal
      ensures Valid() && quit == old(quit)
      ensures signal.count == old(signal.count) - 1
      ensures old(quit) ==> step == Quit && queue == old(queue) && raised == old(raised)
      ensures !old(quit) && old(queue) == [] ==> step == EmptyQueue && queue == [] && raised == old(raised)
      ensures !old(quit) && old(queue) != [] ==>
        && step == Dequeued(ResultArgs(old(queue)[0], false))
        && queue == old(queue)[1..]
        && raised == old(raised) + [step.args]
      ensures old(Bookkept()) && !old(quit) ==> step.Dequeued? && Bookkept()
    {
      signal.Decrement();
      if quit {
        return Quit;
      }
      if queue == [] {
        return EmptyQueue;
      }
      var file := queue[0];
      WithoutFront(queue);
      WithoutKeepsNoDuplicates(queue, file);
      queue := Without(queue, file);
      var args := ResultArgs(file, false);
      raised := raised + [args];
      step := Dequeued(args);
    }

    /**
     * The destructor: set the quit flag, then signal once, then wait for the
     * thread, whose next Decrement returns at once and sees the flag.
     */
    method Destroy() returns (step: WorkerStep)
      requires Valid()
      modifies this, signal
      ensures Valid() && quit
      ensures step == Quit
      ensures queue == old(queue) && raised == old(raised)
      ensures signal.count == CountAfterIncrements(old(signal.count), 1) - 1
    {
      quit := true;
      var _ := signal.Increment();
      step := Step();
    }
  }
}
