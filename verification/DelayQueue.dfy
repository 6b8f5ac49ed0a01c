/**
  The timer wheel both runtimes index their expiries with: a map from reusable
  keys to a deadline and an item. Using a key that is not in the queue is an
  error (the original panics), so `ResetAt` and `Remove` demand a live key.
 */
module DelayQueues {
  import opened Options

  datatype Timer<+T> = Timer(deadline: nat, item: T)

  lemma {:induction false} FreshKeyBelow<V>(m: map<nat, V>, n: nat)
    requires forall k: nat :: k < n ==> k in m
    ensures |m| >= n
    decreases n
  {
    if n > 0 {
      FreshKeyBelow(m - {n - 1}, n - 1);
    }
  }

  /** A finite queue always has an unused key. */
  lemma FreshKey<V>(m: map<nat, V>)
    ensures exists k: nat :: k !in m
  {
    if forall k: nat :: k in m {
      FreshKeyBelow(m, |m| + 1);
      assert false;
    }
  }

  class DelayQueue<T(==)> {
    var timers: map<nat, Timer<T>>

    constructor ()
      ensures timers == map[]
    {
      timers := map[];
    }

    method InsertAt(item: T, deadline: nat) returns (key: nat)
      modifies this
      ensures key !in old(timers)
      ensures timers == old(timers)[key := Timer(deadline, item)]
    {
      FreshKey(timers);
      key :| key !in timers;
      timers := timers[key := Timer(deadline, item)];
    }

    method ResetAt(key: nat, deadline: nat)
      requires key in timers
      modifies this
      ensures timers == old(timers)[key := Timer(deadline, old(timers)[key].item)]
    {
      timers := timers[key := timers[key].(deadline := deadline)];
    }

    method Remove(key: nat)
      requires key in timers
      modifies this
      ensures timers == old(timers) - {key}
    {
      timers := timers - {key};
    }

    /** Takes out one timer that is due at `now`, or reports that none is. */
    method PollExpired(now: nat) returns (key: Option<nat>, item: Option<T>)
      modifies this
      ensures key.None? <==> item.None?
      ensures key.None? ==> timers == old(timers)
      ensures key.None? ==> forall k :: k in timers ==> timers[k].deadline > now
      ensures key.Some? ==> key.value in old(timers)
      ensures key.Some? ==> old(timers)[key.value].deadline <= now
      ensures key.Some? ==> item == Some(old(timers)[key.value].item)
      ensures key.Some? ==> timers == old(timers) - {key.value}
    {
      if k :| k in timers && timers[k].deadline <= now {
        key, item := Some(k), Some(timers[k].item);
        timers := timers - {k};
      } else {
        key, item := None, None;
      }
    }
  }
}
