/**
 * The state of the log service (ILogServiceImpl) as one value, and each
 * synchronized operation on it as one atomic transition.  The class in
 * module LogService is proved to follow these transitions; the lemmas here
 * state what the transitions guarantee.
 */
module Broker {
  import opened Wrappers
  import LibLog

  /** Identity of a listener's binder: the key of the registry. */
  type Binder = nat

  /**
   * A listener proxy as handed to register/unregister.  Different proxy
   * objects may stand for the same remote binder, so only `binder` identifies
   * the subscriber.
   */
  datatype Listener = Listener(binder: Binder, proxy: nat)

  /** ListenerTracker: the death recipient holding the listener it was registered with. */
  datatype Tracker = Tracker(listener: Listener)

  /** The state owned by LogServiceThread. */
  datatype Poller = Poller(lastKnownSize: int)

  /** What one pass of the poll loop did. */
  datatype PollOutcome =
    | Stopped          // the thread was interrupted: no handle, no further steps
    | ReadFailed       // a size read raised LibLogException: sleep and retry
    | Unchanged        // the size equals mLastKnownSize: sleep
    | Changed(size: int)  // the second reading was stored and fanned out

  /** One call of onUsedLogSizeChange on a remote listener. */
  datatype Delivery = Delivery(to: Listener, size: int)

  datatype State = State(
    listeners: map<Binder, Tracker>,  // the `listeners` HashMap
    linked: set<Binder>,              // binders this service is linked to for death notices
    thread: Option<Poller>,           // logServiceThread, None when null
    flushCount: int)                  // flushCounter

  const INT_MIN: int := -0x8000_0000
  const INT_MAX: int := 0x7fff_ffff

  /** mLastKnownSize of a thread that has just been created. */
  const INITIAL_LAST_KNOWN_SIZE: int := 0

  /**
   * The service's invariant: a poller exists exactly while some listener is
   * registered, every registered binder (and no other) is linked for death,
   * every tracker is filed under its own listener's binder, and the counter
   * is a Java int.
   */
  ghost predicate Inv(s: State) {
    && (s.thread.Some? <==> s.listeners != map[])
    && s.linked == s.listeners.Keys
    && (forall b :: b in s.listeners ==> s.listeners[b].listener.binder == b)
    && INT_MIN <= s.flushCount <= INT_MAX
  }

  /** A freshly constructed service. */
  function Initial(): State {
    State(map[], {}, None, 0)
  }

  /** AtomicInteger.incrementAndGet: add one, wrapping around at 32 bits. */
  function IncrementAndGet(x: int): (r: int)
    requires INT_MIN <= x <= INT_MAX
    ensures INT_MIN <= r <= INT_MAX
    ensures (r - x) % 0x1_0000_0000 == 1
  {
    if x == INT_MAX then INT_MIN else x + 1
  }

  /** flushLog: the counter moves only when the library flush returned normally. */
  function AfterFlush(s: State, st: LibLog.Status): State
    requires INT_MIN <= s.flushCount <= INT_MAX
  {
    if st == LibLog.Flushed then s.(flushCount := IncrementAndGet(s.flushCount)) else s
  }

  /** Whether register raises: linkToDeath fails on a binder that is already dead. */
  predicate RegisterThrows(s: State, l: Option<Listener>, linkOk: bool) {
    l.Some? && l.value.binder !in s.listeners && !linkOk
  }

  /**
   * register: a null listener and a duplicate binder are ignored; otherwise
   * the listener is linked for death and filed under its binder, and a thread
   * is created when there is none.
   */
  function AfterRegister(s: State, l: Option<Listener>, linkOk: bool): State {
    if l.None? || l.value.binder in s.listeners || !linkOk then s
    else
      State(s.listeners[l.value.binder := Tracker(l.value)],
            s.linked + {l.value.binder},
            if s.thread.None? then Some(Poller(INITIAL_LAST_KNOWN_SIZE)) else s.thread,
            s.flushCount)
  }

  /**
   * Removal of the binders in `dead`, unlinking them, and dropping the thread
   * handle when a thread exists and the registry has become empty.
   */
  function Removed(s: State, dead: set<Binder>): State {
    var rest := s.listeners - dead;
    State(rest,
          s.linked - dead,
          if s.thread.Some? && rest == map[] then None else s.thread,
          s.flushCount)
  }

  /** unregister: a null listener and an unknown binder are ignored. */
  function AfterUnregister(s: State, l: Option<Listener>): State {
    if l.None? || l.value.binder !in s.listeners then s
    else Removed(s, {l.value.binder})
  }

  /**
   * One pass of LogServiceThread.run: the first reading is compared with
   * mLastKnownSize, and on a difference a second reading is taken and stored.
   */
  function Classify(s: State, first: LibLog.Reading, second: LibLog.Reading): PollOutcome {
    if s.thread.None? then Stopped
    else if first.Failure? then ReadFailed
    else if first.value == s.thread.value.lastKnownSize then Unchanged
    else if second.Failure? then ReadFailed
    else Changed(second.value)
  }

  /**
   * The state after one pass: on a change the thread stores the second
   * reading, and every listener whose delivery failed is unregistered.
   */
  function AfterPoll(s: State, first: LibLog.Reading, second: LibLog.Reading, failing: set<Binder>): State {
    match Classify(s, first, second)
    case Changed(v) => Removed(s.(thread := Some(Poller(v))), failing)
    case _ => s
  }

  // ---------------------------------------------------------------------
  // The invariant is kept by every operation.

  lemma RegisterKeepsInv(s: State, l: Option<Listener>, linkOk: bool)
    requires Inv(s)
    ensures Inv(AfterRegister(s, l, linkOk))
  {
  }

  lemma RemovedKeepsInv(s: State, dead: set<Binder>)
    requires Inv(s)
    ensures Inv(Removed(s, dead))
  {
  }

  lemma UnregisterKeepsInv(s: State, l: Option<Listener>)
    requires Inv(s)
    ensures Inv(AfterUnregister(s, l))
  {
  }

  lemma PollKeepsInv(s: State, first: LibLog.Reading, second: LibLog.Reading, failing: set<Binder>)
    requires Inv(s)
    ensures Inv(AfterPoll(s, first, second, failing))
  {
  }

  lemma FlushKeepsInv(s: State, st: LibLog.Status)
    requires Inv(s)
    ensures Inv(AfterFlush(s, st))
  {
  }

  // ---------------------------------------------------------------------
  // register

  /** A null listener, or a binder that is already registered, changes nothing. */
  lemma RegisterIgnored(s: State, l: Option<Listener>, linkOk: bool)
    requires l.None? || l.value.binder in s.listeners
    ensures AfterRegister(s, l, linkOk) == s
    ensures !RegisterThrows(s, l, linkOk)
  {
  }

  /**
   * Registering a new binder adds exactly one entry, keyed by that binder and
   * holding that listener, links exactly that binder, keeps an existing thread
   * and otherwise creates one with mLastKnownSize 0.
   */
  lemma RegisterAddsOne(s: State, l: Listener)
    requires Inv(s)
    requires l.binder !in s.listeners
    ensures var s' := AfterRegister(s, Some(l), true);
      && s'.listeners.Keys == s.listeners.Keys + {l.binder}
      && |s'.listeners| == |s.listeners| + 1
      && s'.listeners[l.binder] == Tracker(l)
      && (forall b :: b in s.listeners ==> s'.listeners[b] == s.listeners[b])
      && s'.linked == s.linked + {l.binder}
      && (s.thread.Some? ==> s'.thread == s.thread)
      && (s.thread.None? ==> s'.thread == Some(Poller(0)))
      && s'.flushCount == s.flushCount
  {
  }

  /** A dead binder makes register throw before anything is filed. */
  lemma RegisterDeadBinder(s: State, l: Listener)
    requires l.binder !in s.listeners
    ensures RegisterThrows(s, Some(l), false)
    ensures AfterRegister(s, Some(l), false) == s
  {
  }

  /**
   * Registering the same binder again (through any proxy) after it is filed
   * is a no-op: one subscription, and no second thread.
   */
  lemma RegisterTwiceIsOnce(s: State, l: Listener, l': Listener, link1: bool, link2: bool)
    requires l'.binder == l.binder
    ensures var s1 := AfterRegister(s, Some(l), link1);
      l.binder in s1.listeners ==> AfterRegister(s1, Some(l'), link2) == s1
  {
  }

  // ---------------------------------------------------------------------
  // unregister and binderDied

  /** A null listener or an unknown binder changes nothing. */
  lemma UnregisterIgnored(s: State, l: Option<Listener>)
    requires l.None? || l.value.binder !in s.listeners
    ensures AfterUnregister(s, l) == s
  {
  }

  /**
   * Unregistering a registered binder removes that key only, unlinks it, and
   * drops the thread exactly when it was the last listener.
   */
  lemma UnregisterRemovesOne(s: State, l: Listener)
    requires Inv(s)
    requires l.binder in s.listeners
    ensures var s' := AfterUnregister(s, Some(l));
      && s'.listeners.Keys == s.listeners.Keys - {l.binder}
      && |s'.listeners| == |s.listeners| - 1
      && (forall b :: b in s'.listeners ==> s'.listeners[b] == s.listeners[b])
      && s'.linked == s.linked - {l.binder}
      && (s'.thread.None? <==> |s.listeners| == 1)
      && (s'.thread.Some? ==> s'.thread == s.thread)
      && s'.flushCount == s.flushCount
  {
  }

  /**
   * Registering a new binder and then unregistering it (through the same
   * proxy or another one for that binder) restores the state exactly,
   * including the thread handle.
   */
  lemma RegisterThenUnregister(s: State, l: Listener, l': Listener)
    requires Inv(s)
    requires l.binder !in s.listeners
    requires l'.binder == l.binder
    ensures AfterUnregister(AfterRegister(s, Some(l), true), Some(l')) == s
  {
  }

  /**
   * binderDied calls unregister with the tracker's own listener; for the
   * tracker filed under `b` this is the same end state as an explicit
   * unregister through any proxy of `b`.
   */
  lemma DeathIsUnregister(s: State, b: Binder, l: Listener)
    requires Inv(s)
    requires b in s.listeners
    requires l.binder == b
    ensures AfterUnregister(s, Some(s.listeners[b].listener)) == AfterUnregister(s, Some(l))
    ensures b !in AfterUnregister(s, Some(l)).listeners
    ensures b !in AfterUnregister(s, Some(l)).linked
  {
  }

  // ---------------------------------------------------------------------
  // the poll loop

  /** Removing two batches of binders one after the other removes their union. */
  lemma RemovedTwice(s: State, d1: set<Binder>, d2: set<Binder>)
    ensures Removed(Removed(s, d1), d2) == Removed(s, d1 + d2)
  {
  }

  /** Only registered binders matter to a removal. */
  lemma RemovedOnlyRegistered(s: State, dead: set<Binder>)
    requires Inv(s)
    ensures Removed(s, dead * s.listeners.Keys) == Removed(s, dead)
  {
  }

  /** A pass that sees no change, fails to read, or runs without a thread changes nothing. */
  lemma PollWithoutChange(s: State, first: LibLog.Reading, second: LibLog.Reading, failing: set<Binder>)
    requires !Classify(s, first, second).Changed?
    ensures AfterPoll(s, first, second, failing) == s
  {
  }

  /** Either size read failing leaves the registry and mLastKnownSize alone. */
  lemma PollReadFailure(s: State, first: LibLog.Reading, second: LibLog.Reading, failing: set<Binder>)
    requires s.thread.Some?
    requires first.Failure? || (first.value != s.thread.value.lastKnownSize && second.Failure?)
    ensures Classify(s, first, second) == ReadFailed
    ensures AfterPoll(s, first, second, failing) == s
  {
  }

  /**
   * A pass that sees a change stores the second reading, keeps exactly the
   * listeners whose delivery succeeded, unlinks the others, and drops the
   * thread exactly when every listener failed.
   */
  lemma PollChanged(s: State, first: LibLog.Reading, second: LibLog.Reading, failing: set<Binder>)
    requires Inv(s)
    requires s.thread.Some? && first.Size? && second.Size?
    requires first.value != s.thread.value.lastKnownSize
    ensures Classify(s, first, second) == Changed(second.value)
    ensures var s' := AfterPoll(s, first, second, failing);
      && s'.listeners.Keys == s.listeners.Keys - failing
      && (forall b :: b in s'.listeners ==> s'.listeners[b] == s.listeners[b])
      && s'.linked == s.linked - failing
      && (s'.thread.None? <==> s.listeners.Keys <= failing)
      && (s'.thread.Some? ==> s'.thread == Some(Poller(second.value)))
  {
  }

  /**
   * The stored value is the second reading, not the compared one: when the
   * size moves away and back between the two reads, listeners are told the
   * value they were already told.
   */
  lemma PollStoresSecondReading(l: Listener)
    ensures var s := AfterRegister(Initial(), Some(l), true).(thread := Some(Poller(40)));
      && Classify(s, LibLog.Size(45), LibLog.Size(40)) == Changed(40)
      && AfterPoll(s, LibLog.Size(45), LibLog.Size(40), {}) == s
  {
  }

  /**
   * A new thread starts from mLastKnownSize 0 rather than from an unknown
   * value, so a first listener is not told a used size of 0.
   */
  lemma FreshThreadSkipsZero(l: Listener)
    ensures var s := AfterRegister(Initial(), Some(l), true);
      Classify(s, LibLog.Size(0), LibLog.Size(0)) == Unchanged
  {
  }

  /**
   * The life of the service with two listeners: register S1, a change to 100,
   * register S2, a change to 150, unregister S1, a change to 200, unregister
   * S2; the thread then no longer exists, so nothing further is polled.
   */
  lemma TwoListenerScenario(s1: Listener, s2: Listener)
    requires s1.binder != s2.binder
    ensures
      var a := AfterRegister(Initial(), Some(s1), true);
      var b := AfterPoll(a, LibLog.Size(100), LibLog.Size(100), {});
      var c := AfterRegister(b, Some(s2), true);
      var d := AfterPoll(c, LibLog.Size(150), LibLog.Size(150), {});
      var e := AfterUnregister(d, Some(s1));
      var f := AfterPoll(e, LibLog.Size(200), LibLog.Size(200), {});
      var g := AfterUnregister(f, Some(s2));
      && a.thread == Some(Poller(0))
      && Classify(a, LibLog.Size(100), LibLog.Size(100)) == Changed(100)
      && c.listeners.Keys == {s1.binder, s2.binder} && c.thread == Some(Poller(100))
      && Classify(c, LibLog.Size(150), LibLog.Size(150)) == Changed(150)
      && e.listeners.Keys == {s2.binder}
      && Classify(e, LibLog.Size(200), LibLog.Size(200)) == Changed(200)
      && g == Initial()
      && (forall r1, r2 :: Classify(g, r1, r2) == Stopped)
  {
  }

  // ---------------------------------------------------------------------
  // flushLog

  /**
   * flushLog adds exactly one to the counter (modulo 2^32) after a normal
   * flush and leaves everything else alone; a failed flush changes nothing.
   */
  lemma FlushCounts(s: State, st: LibLog.Status)
    requires Inv(s)
    ensures var s' := AfterFlush(s, st);
      && s'.listeners == s.listeners && s'.linked == s.linked && s'.thread == s.thread
      && (st == LibLog.Flushed ==> (s'.flushCount - s.flushCount) % 0x1_0000_0000 == 1)
      && (st == LibLog.Flushed && s.flushCount < INT_MAX ==> s'.flushCount == s.flushCount + 1)
      && (st == LibLog.FlushFailed ==> s' == s)
  {
  }
}
