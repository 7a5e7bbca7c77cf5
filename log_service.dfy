/**
 * ILogServiceImpl as an object: the listener HashMap, the thread handle and
 * the flush counter are fields updated in place.  Every public method is one
 * step under the `listeners` lock and is proved to perform the matching
 * transition of module Broker.
 */
module LogService {
  import opened Wrappers
  import LibLog
  import opened Broker

  /** LogServiceThread: the poller, owning mLastKnownSize. */
  class LogServiceThread {
    var lastKnownSize: int

    constructor ()
      ensures lastKnownSize == INITIAL_LAST_KNOWN_SIZE
    {
      lastKnownSize := INITIAL_LAST_KNOWN_SIZE;
    }
  }

  class LogServiceImpl {
    var listeners: map<Binder, Tracker>
    ghost var linked: set<Binder>
    var thread: LogServiceThread?
    var flushCounter: int

    /** The service as a Broker state. */
    ghost function Abstract(): State
      reads this, thread
    {
      State(listeners, linked,
            if thread == null then None else Some(Poller(thread.lastKnownSize)),
            flushCounter)
    }

    ghost predicate Valid()
      reads this, thread
    {
      Inv(Abstract())
    }

    constructor ()
      ensures Valid() && Abstract() == Initial()
    {
      listeners := map[];
      linked := {};
      thread := null;
      flushCounter := 0;
    }

    /**
     * flushLog: count the flush once the library has flushed without raising.
     * `deviceOpen` and `code` are what the log device gives the library.
     */
    method FlushLog(deviceOpen: bool, code: int) returns (ok: bool)
      requires Valid()
      modifies this
      ensures Valid() && thread == old(thread)
      ensures ok <==> deviceOpen && code == 0
      ensures Abstract() == AfterFlush(old(Abstract()), LibLog.FlushStatus(deviceOpen, code))
    {
      var st := LibLog.FlushStatus(deviceOpen, code);
      if st == LibLog.FlushFailed {
        return false;
      }
      flushCounter := IncrementAndGet(flushCounter);
      ok := true;
    }

    /**
     * register: returns false when linkToDeath raised because the binder is
     * already dead.  An existing thread is kept; a new one is started only
     * when there is none.
     */
    method Register(l: Option<Listener>, linkOk: bool) returns (ok: bool)
      requires Valid()
      modifies this
      ensures Valid()
      ensures ok <==> !RegisterThrows(old(Abstract()), l, linkOk)
      ensures Abstract() == AfterRegister(old(Abstract()), l, linkOk)
      ensures old(thread) != null ==> thread == old(thread)
      ensures old(thread) == null && thread != null ==> fresh(thread)
    {
      ok := true;
      if l.None? {
        return;
      }
      var binder := l.value.binder;
      if binder in listeners {
        // duplicate listener: ignored with a warning
        return;
      }
      if !linkOk {
        // linkToDeath raised RemoteException: nothing has been filed
        return false;
      }
      linked := linked + {binder};
      listeners := listeners[binder := Tracker(l.value)];
      if thread == null {
        thread := new LogServiceThread();
      }
    }

    /**
     * unregister: forget the binder, unlink it, and interrupt and drop the
     * thread once the registry is empty.
     */
    method Unregister(l: Option<Listener>)
      requires Valid()
      modifies this
      ensures Valid()
      ensures Abstract() == AfterUnregister(old(Abstract()), l)
      ensures thread == null || thread == old(thread)
    {
      if l.None? {
        return;
      }
      var binder := l.value.binder;
      if binder !in listeners {
        // unregistered listener: ignored with a warning
        return;
      }
      listeners := listeners - {binder};
      // the binder was linked when it was filed, so unlinking it cannot fail
      assert binder in linked;
      linked := linked - {binder};
      if thread != null && listeners == map[] {
        thread := null;
      }
    }

    /** ListenerTracker.binderDied: the same path as an explicit unregister. */
    method BinderDied(t: Tracker)
      requires Valid()
      modifies this
      ensures Valid()
      ensures Abstract() == AfterUnregister(old(Abstract()), Some(t.listener))
      ensures thread == null || thread == old(thread)
    {
      Unregister(Some(t.listener));
    }

    /**
     * One pass of LogServiceThread.run, given what the log device returns to
     * the two used-size reads it makes and the set of binders whose delivery
     * raises RemoteException.
     * On a change every listener registered at the start of the fan-out is
     * sent the stored value exactly once, and those whose delivery failed
     * are unregistered as the fan-out goes.
     */
    method PollStep(deviceOpen: bool, raw1: int, raw2: int, failing: set<Binder>)
      returns (outcome: PollOutcome, sent: seq<Delivery>)
      requires Valid()
      modifies this, thread
      ensures Valid()
      ensures thread == null || thread == old(thread)
      ensures outcome == Classify(old(Abstract()), LibLog.ReadSize(deviceOpen, raw1), LibLog.ReadSize(deviceOpen, raw2))
      ensures Abstract() == AfterPoll(old(Abstract()), LibLog.ReadSize(deviceOpen, raw1),
                                      LibLog.ReadSize(deviceOpen, raw2), failing)
      ensures outcome.Changed? ==> outcome.size >= 0
      ensures !outcome.Changed? ==> sent == []
      ensures outcome.Changed? ==>
        && (forall i :: 0 <= i < |sent| ==>
              && sent[i].to.binder in old(listeners)
              && sent[i].to == old(listeners)[sent[i].to.binder].listener
              && sent[i].size == outcome.size)
        && (forall b :: b in old(listeners) ==> exists i :: 0 <= i < |sent| && sent[i].to.binder == b)
        && (forall i, j :: 0 <= i < j < |sent| ==> sent[i].to.binder != sent[j].to.binder)
    {
      sent := [];
      var first := LibLog.ReadSize(deviceOpen, raw1);
      var second := LibLog.ReadSize(deviceOpen, raw2);
      var t := thread;
      if t == null {
        return Stopped, [];
      }
      if first.Failure? {
        // LibLogException: sleep, then poll again
        return ReadFailed, [];
      }
      if first.value == t.lastKnownSize {
        // no change: sleep, then poll again
        return Unchanged, [];
      }
      if second.Failure? {
        return ReadFailed, [];
      }
      t.lastKnownSize := second.value;
      outcome := Changed(second.value);

      ghost var s1 := Abstract();
      var snapshot := listeners;
      var remaining := snapshot.Keys;
      while remaining != {}
        invariant remaining <= snapshot.Keys
        invariant t.lastKnownSize == second.value
        invariant thread == null || thread == t
        invariant Abstract() == Removed(s1, failing * (snapshot.Keys - remaining))
        invariant Valid()
        invariant forall i :: 0 <= i < |sent| ==>
          && sent[i].to.binder in snapshot.Keys - remaining
          && sent[i].to == snapshot[sent[i].to.binder].listener
          && sent[i].size == second.value
        invariant forall b :: b in snapshot.Keys - remaining ==>
          exists i :: 0 <= i < |sent| && sent[i].to.binder == b
        invariant forall i, j :: 0 <= i < j < |sent| ==> sent[i].to.binder != sent[j].to.binder
        decreases remaining
      {
        var b :| b in remaining;
        var listener := snapshot[b].listener;
        ghost var before := sent;
        sent := sent + [Delivery(listener, second.value)];
        forall c | c in snapshot.Keys - (remaining - {b})
          ensures exists i :: 0 <= i < |sent| && sent[i].to.binder == c
        {
          if c == b {
            assert sent[|before|].to.binder == c;
          } else {
            assert c in snapshot.Keys - remaining;
            var i :| 0 <= i < |before| && before[i].to.binder == c;
            assert sent[i] == before[i];
          }
        }
        ghost var done := failing * (snapshot.Keys - remaining);
        if b in failing {
          // onUsedLogSizeChange raised RemoteException
          Unregister(Some(listener));
          RemovedTwice(s1, done, {b});
        }
        assert failing * (snapshot.Keys - (remaining - {b})) == done + (if b in failing then {b} else {});
        remaining := remaining - {b};
      }
      assert snapshot.Keys - remaining == old(listeners).Keys;
      RemovedOnlyRegistered(s1, failing);
    }
  }
}
