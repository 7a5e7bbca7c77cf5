/**
 * The fan-out of LogServiceThread.run as the Java code writes it: a for-each
 * over the live `listeners.entrySet()` that calls unregister, and so removes
 * from the same HashMap, whenever a delivery fails.  HashMap's iterator
 * remembers the next entry when it hands out the current one, and its next()
 * raises ConcurrentModificationException once the map has been modified.  So
 * a failed delivery to any entry but the last ends the loop with an exception
 * that neither catch clause of run() handles.  Module LogService models the
 * intended behaviour instead: a fan-out over a snapshot that reaches everyone.
 */
module FanOut {
  import opened Broker

  /** What the as-written loop did: the binders it tried, and whether it raised. */
  datatype Trace = Trace(attempted: seq<Binder>, crashed: bool)

  /**
   * The as-written loop over the map's iteration order `order`, where
   * deliveries to the binders in `failing` raise RemoteException.
   */
  function AsWritten(order: seq<Binder>, failing: set<Binder>): Trace {
    if order == [] then Trace([], false)
    else if order[0] in failing && |order| > 1 then
      // unregister removed order[0]; the following next() raises
      Trace([order[0]], true)
    else
      var rest := AsWritten(order[1..], failing);
      Trace([order[0]] + rest.attempted, rest.crashed)
  }

  /**
   * The as-written loop raises exactly when some entry other than the last
   * fails; it then has reached only the entries up to the first failure, so
   * every later entry is never notified.  Otherwise it reaches every entry.
   */
  lemma {:induction false} AsWrittenCrashes(order: seq<Binder>, failing: set<Binder>)
    ensures var tr := AsWritten(order, failing);
      && (tr.crashed <==> exists i :: 0 <= i < |order| - 1 && order[i] in failing)
      && (!tr.crashed ==> tr.attempted == order)
      && (tr.crashed ==>
            && 0 < |tr.attempted| < |order|
            && tr.attempted == order[..|tr.attempted|]
            && tr.attempted[|tr.attempted| - 1] in failing
            && (forall i :: 0 <= i < |tr.attempted| - 1 ==> order[i] !in failing))
  {
    if order == [] {
    } else if order[0] in failing && |order| > 1 {
      assert 0 < |order| - 1 && order[0] in failing;
    } else {
      var rest := AsWritten(order[1..], failing);
      AsWrittenCrashes(order[1..], failing);
      var tr := AsWritten(order, failing);
      if rest.crashed {
        var i :| 0 <= i < |order[1..]| - 1 && order[1..][i] in failing;
        assert order[i + 1] in failing;
        assert tr.attempted == order[..|tr.attempted|] by {
          assert order == [order[0]] + order[1..];
        }
      } else {
        assert tr.attempted == order;
      }
    }
  }

  /**
   * With two listeners, a failed delivery to the first ends the loop before
   * the second is notified: the second never hears of the change.
   */
  lemma AsWrittenMissesSecondListener()
    ensures AsWritten([7, 9], {7}) == Trace([7], true)
  {
  }

  /**
   * When the as-written loop raises, some listener after the failed one is
   * still registered once the failed ones are unregistered, so unregister
   * never clears the `logServiceThread` field although its run() has been
   * left by the exception.  What follows for the service depends on the
   * runtime's uncaught-exception handler: one that ends only the thread
   * leaves a set handle with no poller behind it; Android's default handler
   * kills the whole service process instead.
   */
  lemma {:induction false} AsWrittenKeepsDeadHandle(s: State, order: seq<Binder>, failing: set<Binder>)
    requires Inv(s)
    requires forall i :: 0 <= i < |order| ==> order[i] in s.listeners
    requires forall b :: b in s.listeners ==> b in order
    requires forall i, j :: 0 <= i < j < |order| ==> order[i] != order[j]
    requires AsWritten(order, failing).crashed
    ensures var tr := AsWritten(order, failing);
      var s' := Removed(s, failing * (set i | 0 <= i < |tr.attempted| :: tr.attempted[i]));
      && s'.thread.Some?
      && |tr.attempted| < |order|
      && order[|tr.attempted|] in s'.listeners
  {
    var tr := AsWritten(order, failing);
    AsWrittenCrashes(order, failing);
    var k := |tr.attempted|;
    var dead := failing * (set i | 0 <= i < k :: tr.attempted[i]);
    assert order[k] in Removed(s, dead).listeners;
  }
}
