/** Model of the keystore KDF limiter (crates/core/src/lib.rs): a counter under a mutex with a
    condition variable.  Each method is one critical section; which thread runs next, which waiter
    a notification reaches, and spurious wake-ups are up to the caller and the condition variable. */
module KdfLimiting {

  type Thread = nat

  const MAX_CONCURRENT_KDFS := 2

  /** No wake-up is lost: while some thread sleeps, at least as many threads are awake and about to
      check the counter as there are free permits. */
  ghost predicate NoLostWakeup(inFlight: nat, waiting: set<Thread>, woken: set<Thread>) {
    waiting != {} ==> |woken| + inFlight >= MAX_CONCURRENT_KDFS
  }

  lemma Added(s: set<Thread>, t: Thread)
    requires t !in s
    ensures |s + {t}| == |s| + 1
  {
  }

  lemma Removed(s: set<Thread>, t: Thread)
    requires t in s
    ensures |s - {t}| == |s| - 1
  {
  }

  class KdfLimiter {
    var inFlight: nat
    /** The threads that hold a permit, sleep in the condition variable, or have left it and not yet
        locked the mutex again. */
    ghost var holding: set<Thread>
    ghost var waiting: set<Thread>
    ghost var woken: set<Thread>

    ghost predicate Valid()
      reads this
    {
      && inFlight == |holding| <= MAX_CONCURRENT_KDFS
      && holding !! waiting && holding !! woken && waiting !! woken
      && NoLostWakeup(inFlight, waiting, woken)
    }

    constructor ()
      ensures Valid() && holding == waiting == woken == {}
    {
      inFlight, holding, waiting, woken := 0, {}, {}, {};
    }

    /** The first pass of `acquire`: take a permit, even ahead of threads already waiting, or sleep. */
    method Acquire(t: Thread) returns (permit: bool)
      requires Valid() && t !in holding + waiting + woken
      modifies this
      ensures Valid() && woken == old(woken)
      ensures permit <==> old(|holding|) < 2
      ensures permit ==> holding == old(holding) + {t} && waiting == old(waiting)
      ensures !permit ==> holding == old(holding) && waiting == old(waiting) + {t}
    {
      if inFlight >= MAX_CONCURRENT_KDFS {
        waiting := waiting + {t};
        return false;
      }
      Added(holding, t);
      holding := holding + {t};
      inFlight := inFlight + 1;
      return true;
    }

    /** A woken thread has the mutex again: the loop condition once more. */
    method Recheck(t: Thread) returns (permit: bool)
      requires Valid() && t in woken
      modifies this
      ensures Valid() && woken == old(woken) - {t}
      ensures permit <==> old(|holding|) < 2
      ensures permit ==> holding == old(holding) + {t} && waiting == old(waiting)
      ensures !permit ==> holding == old(holding) && waiting == old(waiting) + {t}
    {
      Removed(woken, t);
      if inFlight >= MAX_CONCURRENT_KDFS {
        woken, waiting := woken - {t}, waiting + {t};
        return false;
      }
      Added(holding, t);
      woken, holding := woken - {t}, holding + {t};
      inFlight := inFlight + 1;
      return true;
    }

    /** The condition variable lets a thread go without a notification. */
    ghost method WakeSpuriously(t: Thread)
      requires Valid() && t in waiting
      modifies this`waiting, this`woken
      ensures Valid()
      ensures waiting == old(waiting) - {t} && woken == old(woken) + {t}
    {
      Added(woken, t);
      waiting, woken := waiting - {t}, woken + {t};
    }

    /** Dropping a permit: count down, then `notify_one`, which reaches some waiter if there is one. */
    method Drop(t: Thread)
      requires Valid() && t in holding
      modifies this
      ensures Valid() && holding == old(holding) - {t}
      ensures old(waiting) == {} ==> waiting == {} && woken == old(woken)
      ensures old(waiting) != {} ==>
                exists w :: w in old(waiting) && waiting == old(waiting) - {w} && woken == old(woken) + {w}
    {
      Removed(holding, t);
      holding := holding - {t};
      inFlight := inFlight - 1;  // `saturating_sub`: the permit being dropped is counted
      if waiting != {} {
        ghost var w :| w in waiting;
        Added(woken, w);
        waiting, woken := waiting - {w}, woken + {w};
      }
    }
  }
}
