/**
 * LogManager: the client-side registry mapping each local LogListener to the
 * ListenerTransport registered with the remote service on its behalf.  The
 * remote service is an oracle: each remote call either returns or raises
 * RemoteException, which LogManager rethrows as a RuntimeException.
 */
module Manager {
  import opened Wrappers

  /** Identity of a local LogListener callback object. */
  type LogListener = nat

  /** One call of LogListener.onUsedLogSizeChange on the client's thread. */
  datatype LocalCall = OnUsedLogSizeChange(listener: LogListener, size: int)

  /** ListenerTransport: the remote-side stub wrapping one local listener. */
  class ListenerTransport {
    /** mListener; None once cleared. */
    var listener: Option<LogListener>

    constructor (l: LogListener)
      ensures listener == Some(l)
    {
      listener := Some(l);
    }

    /** clearListener: later deliveries through this transport are dropped. */
    method ClearListener()
      modifies this
      ensures listener == None
    {
      listener := None;
    }

    /**
     * handleMessage: a size-change message reaches the local listener only
     * while the transport still holds it.
     */
    method HandleMessage(size: int) returns (call: Option<LocalCall>)
      ensures call.None? <==> listener.None?
      ensures call.Some? ==> call.value.listener == listener.value && call.value.size == size
    {
      if listener.None? {
        return None;
      }
      call := Some(OnUsedLogSizeChange(listener.value, size));
    }
  }

  /** A call made to the remote ILogService. */
  datatype RemoteCall =
    | RemoteRegister(transport: ListenerTransport)
    | RemoteUnregister(transport: ListenerTransport)

  class LogManager {
    /** mListeners */
    var listeners: map<LogListener, ListenerTransport>

    /**
     * Every filed transport still delivers to the listener it is filed under
     * (so no two listeners share a transport).
     */
    ghost predicate Valid()
      reads this, listeners.Values
    {
      forall l :: l in listeners ==> listeners[l].listener == Some(l)
    }

    constructor ()
      ensures Valid() && listeners == map[]
    {
      listeners := map[];
    }

    /**
     * register: a null or already filed listener is ignored without a remote
     * call.  Otherwise a new transport is registered remotely and filed only
     * if that call returns; `ok` is false when the RuntimeException is thrown.
     */
    method Register(l: Option<LogListener>, remoteOk: bool) returns (ok: bool, call: Option<RemoteCall>)
      requires Valid()
      modifies this
      ensures Valid()
      ensures l.None? || l.value in old(listeners) ==>
        ok && call.None? && listeners == old(listeners)
      ensures l.Some? && l.value !in old(listeners) ==>
        && call.Some? && call.value.RemoteRegister?
        && fresh(call.value.transport)
        && call.value.transport.listener == l
        && ok == remoteOk
        && listeners == if remoteOk then old(listeners)[l.value := call.value.transport] else old(listeners)
    {
      ok, call := true, None;
      if l.None? {
        return;
      }
      if l.value in listeners {
        // already registered: ignored with a warning
        return;
      }
      var wrapper := new ListenerTransport(l.value);
      call := Some(RemoteRegister(wrapper));
      if !remoteOk {
        // RemoteException, rethrown as RuntimeException before filing
        ok := false;
        return;
      }
      listeners := listeners[l.value := wrapper];
    }

    /**
     * unregister: a null or unknown listener is ignored without a remote
     * call.  Otherwise the entry is removed first, then the transport is
     * unregistered remotely, and it is cleared only if that call returns.
     */
    method Unregister(l: Option<LogListener>, remoteOk: bool) returns (ok: bool, call: Option<RemoteCall>)
      requires Valid()
      modifies this, if l.Some? && l.value in listeners then {listeners[l.value]} else {}
      ensures Valid()
      ensures l.None? || l.value !in old(listeners) ==>
        ok && call.None? && listeners == old(listeners)
      ensures l.Some? && l.value in old(listeners) ==>
        && call == Some(RemoteUnregister(old(listeners)[l.value]))
        && listeners == old(listeners) - {l.value}
        && ok == remoteOk
        && old(listeners)[l.value].listener == (if remoteOk then None else l)
    {
      ok, call := true, None;
      if l.None? {
        return;
      }
      if l.value !in listeners {
        // not registered: ignored with a warning
        return;
      }
      var wrapper := listeners[l.value];
      listeners := listeners - {l.value};
      call := Some(RemoteUnregister(wrapper));
      if !remoteOk {
        // RemoteException, rethrown as RuntimeException: the transport keeps its listener
        ok := false;
        return;
      }
      wrapper.ClearListener();
    }
  }

  /**
   * An unregister followed by a size-change message that was already on its
   * way to the transport: the entry is gone either way, and the message is
   * dropped exactly when the remote unregister returned normally.
   */
  method UnregisterThenDeliver(m: LogManager, l: LogListener, size: int, remoteOk: bool)
    returns (ok: bool, dropped: bool)
    requires m.Valid() && l in m.listeners
    modifies m, m.listeners[l]
    ensures m.Valid() && l !in m.listeners
    ensures ok == remoteOk
    ensures dropped <==> ok
  {
    var t := m.listeners[l];
    var call;
    ok, call := m.Unregister(Some(l), remoteOk);
    var local := t.HandleMessage(size);
    dropped := local.None?;
  }

  /** The process-wide holder of LogManager.sInstance. */
  class LogManagerHolder {
    var instance: LogManager?

    constructor ()
      ensures instance == null
    {
      instance := null;
    }

    /**
     * getInstance: the first call that finds the remote service creates the
     * manager; every later call returns that same manager.  A lookup that
     * finds no service raises IllegalStateException (here: null) and leaves
     * no instance behind.
     */
    method GetInstance(serviceFound: bool) returns (m: LogManager?)
      modifies this
      ensures old(instance) != null ==> m == old(instance) && instance == old(instance)
      ensures old(instance) == null ==> instance == m
      ensures old(instance) == null && serviceFound ==> m != null && fresh(m) && m.Valid() && m.listeners == map[]
      ensures old(instance) == null && !serviceFound ==> m == null
    {
      if instance == null {
        if !serviceFound {
          return null;
        }
        instance := new LogManager();
      }
      m := instance;
    }
  }

  /** Two calls of getInstance, the first of which succeeds, return one manager. */
  method GetInstanceTwice(h: LogManagerHolder, found2: bool) returns (m1: LogManager?, m2: LogManager?)
    modifies h
    ensures m1 != null && m2 == m1 && h.instance == m1
    ensures old(h.instance) != null ==> m1 == old(h.instance)
  {
    m1 := h.GetInstance(true);
    m2 := h.GetInstance(found2);
  }
}
