# MrknLogService listener registry and poller, in Dafny

This project models the change-notification core of the MrknLogService log service.

The service side is `ILogServiceImpl`. Remote listeners register their binder. The service links each binder for death notices. A background `LogServiceThread` is meant to exist exactly while at least one listener is registered, and to poll the log device's used size and push every change to all listeners; the Findings section shows where the code falls short of that. A listener whose delivery fails, or whose binder dies, is unregistered. `flushLog` counts successful flushes.

The client side is `LogManager`. It maps each local `LogListener` to the `ListenerTransport` it registered remotely. A cleared transport drops later messages. One manager instance exists per process.

Modules:

- `Wrappers`: `Option`, standing for Java's nullable references.
- `LibLog`: the JNI error convention of the device wrapper. A closed device, a negative size or a non-zero flush code becomes `LibLogException`. The device itself is an oracle.
- `Broker`: the service state as one value (`State`) and its invariant `Inv`. Each synchronized operation is a transition (`AfterRegister`, `AfterUnregister`, `AfterPoll`, `AfterFlush`). The lemmas state what each transition guarantees.
- `LogService`: the classes `LogServiceImpl` and `LogServiceThread`. Their fields are updated in place, and every method is proved to perform the matching `Broker` transition (on the abstract view `Abstract()`) and to keep `Inv`.
- `FanOut`: the fan-out loop as the Java code writes it, with what goes wrong (see Findings).
- `Manager`: `LogManager`, `ListenerTransport` and the holder of the singleton instance.

Modelling choices:

- Each public operation runs under the `listeners` lock, so it is modelled as one atomic step.
- The thread is an optional handle. "Interrupted" means the handle is gone, and a poll step on a service without a handle does nothing (`Stopped`).
- Death links are the ghost set `linked`.
- A listener proxy carries its binder. Two proxies with the same binder count as the same subscriber.
- These come in as parameters: what the log device returns (whether it is open, and its raw results, which `FlushLog` and `PollStep` pass through `LibLog.FlushStatus` and `LibLog.ReadSize`), whether `linkToDeath` succeeds, which deliveries raise `RemoteException`, and whether a client's remote call or its service lookup succeeds.
- The poll step iterates a snapshot of the registry, in an arbitrary order, as `HashMap` iteration order is unspecified.

The model follows the code where the intended design says otherwise:

- A new thread starts with `mLastKnownSize = 0`, not with an "unknown" baseline. When the used size is 0, a new listener is not sent an initial value (`Broker.FreshThreadSkipsZero`).
- The value stored and sent is a second read of the size, not the value that was compared (`Broker.PollStoresSecondReading`).
- `flushCounter` is an `AtomicInteger` and wraps around at 32 bits (`Broker.IncrementAndGet`).

## Model

| member | source | states |
|---|---|---|
| `LibLog.ReadSize` | framework/libmrknlog_jni/jni/com_marakana_android_lib_log_LibLog.cpp:64-74 | a size read succeeds exactly when the device is open and returns a non-negative value, and then yields that value; otherwise LibLogException |
| `LibLog.FlushStatus` | framework/libmrknlog_jni/jni/com_marakana_android_lib_log_LibLog.cpp:37-50 | a flush succeeds exactly when the device is open and returns 0 |
| `Broker.IncrementAndGet` | app/MrknLogService/src/com/marakana/android/logservice/ILogServiceImpl.java:46 | the counter stays a Java int and moves by exactly one modulo 2^32 |
| `Broker.RegisterKeepsInv` | app/MrknLogService/src/com/marakana/android/logservice/ILogServiceImpl.java:59-78 | register keeps: thread present iff registry non-empty, linked set equals the key set, each tracker filed under its own binder |
| `Broker.UnregisterKeepsInv` | app/MrknLogService/src/com/marakana/android/logservice/ILogServiceImpl.java:80-99 | unregister keeps the same invariant |
| `Broker.PollKeepsInv` | app/MrknLogService/src/com/marakana/android/logservice/ILogServiceImpl.java:153-192 | a poll pass, including the unregisters done on delivery failure, keeps the invariant |
| `Broker.FlushKeepsInv` | app/MrknLogService/src/com/marakana/android/logservice/ILogServiceImpl.java:45-46 | flushLog keeps the invariant |
| `Broker.RegisterIgnored` | app/MrknLogService/src/com/marakana/android/logservice/ILogServiceImpl.java:59-64 | a null listener or an already registered binder leaves the map, the linked set and the thread unchanged, and nothing is raised |
| `Broker.RegisterAddsOne` | app/MrknLogService/src/com/marakana/android/logservice/ILogServiceImpl.java:66-74 | a new binder adds exactly one entry, keyed by the binder and holding the listener, links exactly that binder, keeps an existing thread and otherwise creates one with mLastKnownSize 0 |
| `Broker.RegisterDeadBinder` | app/MrknLogService/src/com/marakana/android/logservice/ILogServiceImpl.java:66-68 | when linkToDeath raises, register raises and nothing is filed |
| `Broker.RegisterTwiceIsOnce` | app/MrknLogService/src/com/marakana/android/logservice/ILogServiceImpl.java:63-64 | once a binder is filed, registering it again through any proxy is a no-op, so there is one subscription and no second thread |
| `Broker.UnregisterIgnored` | app/MrknLogService/src/com/marakana/android/logservice/ILogServiceImpl.java:80-87 | a null listener or an unknown binder leaves all state unchanged |
| `Broker.UnregisterRemovesOne` | app/MrknLogService/src/com/marakana/android/logservice/ILogServiceImpl.java:84-95 | unregistering a filed binder removes and unlinks that key only, leaves every other entry untouched, and drops the thread exactly when it was the last listener |
| `Broker.RegisterThenUnregister` | app/MrknLogService/src/com/marakana/android/logservice/ILogServiceImpl.java:59-99 | register of a new binder followed by unregister of that binder restores the state exactly, thread handle included |
| `Broker.DeathIsUnregister` | app/MrknLogService/src/com/marakana/android/logservice/ILogServiceImpl.java:145-146 | the death of a filed binder gives the same end state as an explicit unregister of it through any proxy; the binder is then neither filed nor linked |
| `Broker.PollWithoutChange` | app/MrknLogService/src/com/marakana/android/logservice/ILogServiceImpl.java:154-182 | a pass with no thread, a read failure or an unchanged size changes no state |
| `Broker.PollReadFailure` | app/MrknLogService/src/com/marakana/android/logservice/ILogServiceImpl.java:157-190 | a failure of either size read is a ReadFailed pass that leaves the map and mLastKnownSize unchanged |
| `Broker.PollChanged` | app/MrknLogService/src/com/marakana/android/logservice/ILogServiceImpl.java:159-173 | on a change the second reading is stored, exactly the listeners whose delivery succeeded stay filed and linked, and the thread is dropped exactly when every listener failed |
| `Broker.PollStoresSecondReading` | app/MrknLogService/src/com/marakana/android/logservice/ILogServiceImpl.java:157-160 | when the size moves away and back between the two reads, listeners are sent the value they already had |
| `Broker.FreshThreadSkipsZero` | app/MrknLogService/src/com/marakana/android/logservice/ILogServiceImpl.java:151-159 | a fresh thread's baseline is 0, so a used size of 0 is not reported to a first listener |
| `Broker.TwoListenerScenario` | app/MrknLogService/src/com/marakana/android/logservice/ILogServiceImpl.java:59-192 | register S1, change to 100, register S2, change to 150, unregister S1, change to 200, unregister S2: each change is seen, and the service ends in its initial state with no thread to poll |
| `Broker.FlushCounts` | app/MrknLogService/src/com/marakana/android/logservice/ILogServiceImpl.java:41-47 | a normal flush adds one to the counter (mod 2^32) and changes nothing else; a failed flush changes nothing |
| `LogService.LogServiceThread.constructor` | app/MrknLogService/src/com/marakana/android/logservice/ILogServiceImpl.java:150-151 | a new thread's mLastKnownSize is 0 |
| `LogService.LogServiceImpl.constructor` | app/MrknLogService/src/com/marakana/android/logservice/ILogServiceImpl.java:23-34 | a new service has no listeners, no links, no thread and a zero counter |
| `LogService.LogServiceImpl.FlushLog` | app/MrknLogService/src/com/marakana/android/logservice/ILogServiceImpl.java:41-47 | increments flushCounter only after the library flush returns normally (device open and return code 0), and reports whether it did |
| `LogService.LogServiceImpl.Register` | app/MrknLogService/src/com/marakana/android/logservice/ILogServiceImpl.java:59-78 | performs AfterRegister in place, keeps the invariant, raises exactly on a dead binder, keeps an existing thread object and creates a fresh one only when there was none |
| `LogService.LogServiceImpl.Unregister` | app/MrknLogService/src/com/marakana/android/logservice/ILogServiceImpl.java:80-99 | performs AfterUnregister in place and keeps the invariant; the thread handle is either kept or cleared |
| `LogService.LogServiceImpl.BinderDied` | app/MrknLogService/src/com/marakana/android/logservice/ILogServiceImpl.java:145-146 | ends in exactly the state unregister of the tracker's listener gives |
| `LogService.LogServiceImpl.PollStep` | app/MrknLogService/src/com/marakana/android/logservice/ILogServiceImpl.java:153-192 | performs AfterPoll in place on the readings the JNI convention yields, and keeps the thread object or clears it; a stored size is never negative; on a change, every listener filed at the start is sent the stored value exactly once, the failing ones are unregistered as the fan-out goes, and no failure stops the fan-out; otherwise nothing is sent |
| `FanOut.AsWrittenCrashes` | app/MrknLogService/src/com/marakana/android/logservice/ILogServiceImpl.java:163-174 | the for-each over the live map raises exactly when an entry other than the last fails, reaching only the entries up to that failure; otherwise it reaches every entry |
| `FanOut.AsWrittenMissesSecondListener` | app/MrknLogService/src/com/marakana/android/logservice/ILogServiceImpl.java:164-171 | with two listeners where the first fails, the second is never notified and the loop raises |
| `FanOut.AsWrittenKeepsDeadHandle` | app/MrknLogService/src/com/marakana/android/logservice/ILogServiceImpl.java:163-174 | after that exception a later listener is still filed, so unregister never clears the `logServiceThread` field |
| `Manager.ListenerTransport.constructor` | framework/mrknlogservice/com/marakana/android/service/log/LogManager.java:23-25 | a new transport holds its listener |
| `Manager.ListenerTransport.ClearListener` | framework/mrknlogservice/com/marakana/android/service/log/LogManager.java:27-29 | clearListener sets mListener to null |
| `Manager.ListenerTransport.HandleMessage` | framework/mrknlogservice/com/marakana/android/service/log/LogManager.java:42-48 | a message reaches the local listener, with its size, exactly when mListener is set |
| `Manager.LogManager.constructor` | framework/mrknlogservice/com/marakana/android/service/log/LogManager.java:17-18 | a new manager has no listeners |
| `Manager.LogManager.Register` | framework/mrknlogservice/com/marakana/android/service/log/LogManager.java:100-118 | null and already filed listeners cause no remote call and no change; a new listener gets a fresh transport that is registered remotely and filed only if that call returns, and otherwise a RuntimeException leaves the map unchanged |
| `Manager.LogManager.Unregister` | framework/mrknlogservice/com/marakana/android/service/log/LogManager.java:120-141 | null and unknown listeners cause no remote call and no change; a filed listener's entry is removed before the remote call, so it is gone even when that call fails, and its transport is cleared exactly when the call returns |
| `Manager.UnregisterThenDeliver` | framework/mrknlogservice/com/marakana/android/service/log/LogManager.java:120-141 | after unregister, a size message to the old transport is dropped exactly when the remote unregister returned normally |
| `Manager.LogManagerHolder.GetInstance` | framework/mrknlogservice/com/marakana/android/service/log/LogManager.java:57-71 | the first successful call creates an empty manager; every later call returns that same instance; a failed lookup leaves no instance |
| `Manager.GetInstanceTwice` | framework/mrknlogservice/com/marakana/android/service/log/LogManager.java:57-62 | two getInstance calls return one and the same manager |

## Findings

| source | as written | input that shows it | evidently intended | confidence | as-written member | corrected member |
|---|---|---|---|---|---|---|
| app/MrknLogService/src/com/marakana/android/logservice/ILogServiceImpl.java:163-173 | on a failed delivery, `unregister` removes the entry from the `HashMap` that the for-each is iterating | two listeners, and delivery to the first in iteration order raises RemoteException | one failing listener is unregistered, and the fan-out goes on to the others | high; not executed | `FanOut.AsWrittenMissesSecondListener` | `LogService.LogServiceImpl.PollStep` |

In the as-written case, the iterator's next `next()` raises ConcurrentModificationException. Neither catch clause of `run()` handles it, so `run()` is left and the remaining listeners are never notified. The `logServiceThread` field is not cleared, because the registry is still non-empty (`FanOut.AsWrittenKeepsDeadHandle`). On a runtime whose uncaught-exception handler ends only the thread, the service is then left with a set handle and no poller, and no new thread is started until every listener has unregistered. Under Android's default handler the whole service process is killed instead, taking every registration with it. The rest of the model uses the snapshot fan-out of `PollStep`.

## Left out

- Threads, `Thread.sleep`, the 2000 ms `INCREMENTAL_TIMEOUT`, `Thread.interrupt` and lock contention are not modelled. Each synchronized call is one atomic step, and an interrupted thread takes no further poll steps. The model does not capture a poll pass that overlaps an unregister.
- Permission enforcement in `flushLog` and the `dump` diagnostic output are platform checks and text formatting, so they are left out.
- The `getUsedLogSize` and `getTotalLogSize` forwarding methods of the service are left out; `LibLog.ReadSize` states what they return or raise.
- `LogManager.flushLog`, `getTotalLogSize` and `getUsedLogSize` are left out. They forward to the service and rethrow remote errors as RuntimeException.
- The internals of `linkToDeath` and `unlinkToDeath` are not modelled; the links are a ghost set. Binder death is delivered by calling `BinderDied`.
- lib/libmrknlog/libmrknlog.c and include/mrknlog.h (the device implementation) are not part of this model. Device results enter as parameters (open flag, raw size, raw flush code).
- `LibLog` initialisation and `close` are left out. An unopened or closed device is only the `deviceOpen` flag of `LibLog.ReadSize` and `LibLog.FlushStatus`; one poll pass sees the same flag for both of its reads.
- Android `Handler` and `Message` dispatch are left out; `HandleMessage` is called with the message's size directly.
- The `ServiceManager` lookup is the `serviceFound` flag of `GetInstance`.
- The `containsKey` checks that `LogManager` does outside its lock are races. In the atomic model they cannot differ from the locked state. So the null `wrapper` case (LogManager.java:129, followed by `clearListener` at 138) is not modelled.
- The client's remote service is an oracle. It is not connected to the service model.
- `finalize` methods and all logging are left out.
- `LogService.LogServiceImpl.PollStep`: models the snapshot fan-out rather than the iteration over the live map. The as-written behaviour and its failure are in module `FanOut`.
