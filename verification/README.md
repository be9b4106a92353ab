# Lambda chops: lazy code shipping for serialized lambdas

This project models the core of a small client/server system for remote
execution of Java lambdas. The client serializes a `Callable` or `Runnable`
lambda to a server. The server reads and runs it, and for a Callable writes the
result back. The server does not start with the lambda's code. So before each
payload the client ships the class files the server will need, once per
connection:

1. A first, dry serialization writes into a sink that discards every byte.
   Its `replaceObject` hook watches each object serialization visits.
2. Any class that has a code source is refused ("NYI").
3. For every `SerializedLambda`, the hook writes a `ClassDefinition` on the
   real connection, unless its capturing class was already sent on this
   connection. A `ClassDefinition` holds the capturing class's binary name and
   its class-file bytes, loaded chunk by chunk from the classpath.
4. Only then are the payload itself written and the output flushed.

The server handles each connection with its own class loader (the registry)
and a loop that reads objects, checking in this order:

1. A `ClassDefinition` is defined in the registry.
2. A `Callable` is called, and its value is written back and flushed.
3. A `Runnable` is run.
4. Anything else is logged and skipped.

Class resolution while reading tries the registry first and then the default
lookup. The connection ends on the first exception, and its type decides how.
An `EOFException` closes the connection cleanly, wherever in the loop it
arises: at end of stream, inside a cut-off object, or thrown by `call()` or
`run()`. Any other exception closes it as failed.

Modules, one per file:

- `Wrappers`, `Wire` (`wire.dfy`): `Option`/`Result`, and the objects on the
  wire. These are class definitions, payloads, replies, and the binary-name
  conversion `replace('/', '.')`.
- `ResourceLoad` (`load.dfy`): the chunked resource read `load`, as a loop
  proved equal to a reference definition.
- `Shipper` (`shipper.dfy`): the `replaceObject` hook, the dry traversal and
  `sendObject`.
- `ClientChannel` (`client.dfy`): the per-connection sent-set, the two `send`
  overloads, sessions of calls, and the at-most-once invariant.
- `ServerDispatch` (`server.dfy`): the per-connection registry, resolution,
  priority dispatch, the read loop, and end-of-stream versus failure.
- `EndToEnd` (`protocol.dfy`): client output fed to the server. It proves that
  code-before-payload makes every class resolve. It also proves a Callable
  round trip and the repository's two tests as concrete instances.

Modelling choices:

- **Serialization as a visit sequence.** Java serialization is abstracted to
  the sequence of objects that `writeObject` hands to `replaceObject`, in
  order.
- **Visits as data.** Each visit carries its runtime class and, for a
  `SerializedLambda`, the capturing class in internal form
  (`a/b/C`).
- **Classpath resources.** The classpath is a map from resource path to what
  successive `read(buffer)` calls return.
- **Payload.** A payload carries:
  - the binary names of the classes needed to read it back;
  - whether it is Callable (and what `call()` does);
  - whether it is Runnable (and what `run()` does).
- **Incoming stream.** What a server connection reads is a sequence whose end
  is the end of stream. A read can also be cut off inside an object (an
  `EOFException`) or break with another exception.
- **Exceptions.** An exception a closure throws is its class name plus
  whether it is an `EOFException` (or a subclass). The server's first catch
  clause takes only that type; every other throwable is modelled as the
  failure the second clause reports.
- **The server's loader.** Besides the classes it defined, the model keeps the
  names the loader resolved through the default lookup while reading a
  payload: the classes named in the payload's stream. The JVM records the
  loader as an initiating loader of those classes, so it cannot define them
  afterwards.

`Client.java` writes each class definition at line 117 without a flush, and
flushes once, after the payload, at line 133. The model records no flush per
definition.

## Model

| member | source | states |
|---|---|---|
| Wire.Dotted | client/src/main/java/org/jboss/beach/lambchops/client/Client.java:116 | The binary name has the same length as the internal name and contains no '/'. Every '/' becomes '.' and every other character is kept in place. |
| Wire.DottedInjective | client/src/main/java/org/jboss/beach/lambchops/client/Client.java:116 | Two internal-form names (no '.') with the same binary name are equal, so the sent-set and the shipped definition names stay in one-to-one correspondence. |
| Wire.DottedCollision | client/src/main/java/org/jboss/beach/lambchops/client/Client.java:116 | Without the internal-form assumption the conversion is not injective: "a/b" and "a.b" get the same binary name. |
| ResourceLoad.Load | client/src/main/java/org/jboss/beach/lambchops/client/Client.java:70-82 | The do-while loop returns exactly what the reference `Drain` gives: the bytes of every chunk read before the first end of stream, in order, or the first read failure met before it. |
| ResourceLoad.DrainConcatenates | client/src/main/java/org/jboss/beach/lambchops/client/Client.java:75-80 | Chunks followed by end of stream (or nothing) load as their in-order concatenation. |
| ResourceLoad.DrainIgnoresEmptyChunk | client/src/main/java/org/jboss/beach/lambchops/client/Client.java:77-78 | A zero-length read adds nothing and does not end the loop. |
| ResourceLoad.DrainStopsAtEnd | client/src/main/java/org/jboss/beach/lambchops/client/Client.java:79 | Nothing after the first -1 is read. |
| ResourceLoad.DrainFailsOnError | client/src/main/java/org/jboss/beach/lambchops/client/Client.java:71-76 | An IOException from a read before end of stream makes the whole load fail with it. |
| Shipper.ReplaceObject | client/src/main/java/org/jboss/beach/lambchops/client/Client.java:98-122 | Fails exactly when the object is not acceptable: a code source (error NYI, on the array's component class), a non-lambda object whose class is SerializedLambda, or a capturing class not sent before whose resource is missing or fails to read. It ships exactly when an acceptable lambda's capturing class was not yet sent. The definition it ships carries the binary name and the loaded bytes. |
| Shipper.DryPass | client/src/main/java/org/jboss/beach/lambchops/client/Client.java:96-124 | The sent-set grows by exactly the shipped names. These are pairwise distinct, none was sent before, each is loadable, and each definition is that name's binary name and bytes, at the same position. |
| Shipper.DryPassShipsCaptured | client/src/main/java/org/jboss/beach/lambchops/client/Client.java:111-118 | Only capturing classes of lambdas the traversal visited are shipped. |
| Shipper.DryPassCovers | client/src/main/java/org/jboss/beach/lambchops/client/Client.java:109-124 | A completed traversal found every object acceptable against the sent-set it started with, and left every visited lambda's capturing class in the sent-set. |
| Shipper.DryPassSucceeds | client/src/main/java/org/jboss/beach/lambchops/client/Client.java:109-124 | If every visited object is acceptable, the traversal completes. |
| Shipper.DryPassFailsAt | client/src/main/java/org/jboss/beach/lambchops/client/Client.java:109-124 | A failed traversal stopped at some visit k. The sent-set, shipped names and definitions are exactly those of the first k visits (no rollback), and the hook failed on visit k with the reported error. |
| Shipper.DryPassAppend | client/src/main/java/org/jboss/beach/lambchops/client/Client.java:96-124 | Traversal order: when the first part of a traversal completes, the whole ships what the first part shipped, followed by what the rest ships from the sent-set the first part left. The definitions follow the same order. |
| Shipper.SendObject | client/src/main/java/org/jboss/beach/lambchops/client/Client.java:94-134 | The sent-set grows only by new, distinct capturing classes of visited lambdas, and the definitions written carry exactly their binary names. On success the last two events are the payload write and then the flush, and every earlier event is a definition write. On failure only definitions were written. |
| Shipper.SendObjectCompletes | client/src/main/java/org/jboss/beach/lambchops/client/Client.java:109-133 | A send completes if and only if every visited object is acceptable. A completed send met no class with a code source and leaves every visited lambda's capturing class sent. |
| ClientChannel.Connect | client/src/main/java/org/jboss/beach/lambchops/client/Client.java:53-60 | A new connection has sent no class and written nothing. The replies it will read are whatever the peer writes. |
| ClientChannel.Ship | client/src/main/java/org/jboss/beach/lambchops/client/Client.java:94-134 | `sendObject` on a connection. The sent-set grows only by capturing classes of visited lambdas, the output only by new events, and no reply is read. The payload is written if and only if every visited object was acceptable. |
| ClientChannel.SendCallable | client/src/main/java/org/jboss/beach/lambchops/client/Client.java:84-88 | It succeeds exactly when shipping completed and a reply is available. It then returns the first unread reply and consumes exactly that one. A failure consumes none. A shipping failure means the payload never reached the wire. |
| ClientChannel.SendRunnable | client/src/main/java/org/jboss/beach/lambchops/client/Client.java:90-92 | Reads nothing. Succeeds exactly when the payload was written. |
| ClientChannel.PerformConsumes | client/src/main/java/org/jboss/beach/lambchops/client/Client.java:84-92 | A call consumes the reply it returns, and only a `send(Callable)` consumes one. |
| ClientChannel.SessionConsumesReplies | client/src/main/java/org/jboss/beach/lambchops/client/Client.java:84-92 | Over any sequence of calls on one connection, the values returned to callers followed by the unread replies are exactly the peer's replies, in order. There is one answer per call. |
| ClientChannel.ShipKeepsShippedOnce | client/src/main/java/org/jboss/beach/lambchops/client/Client.java:114-118 | One send keeps the at-most-once invariant: the definition names on the wire are distinct and are exactly the binary names of the sent-set. |
| ClientChannel.SessionShipsOnce | client/src/main/java/org/jboss/beach/lambchops/client/Client.java:53-54 | The at-most-once invariant holds over any sequence of calls, and the sent-set and the output only grow. |
| ClientChannel.AtMostOnce | client/src/main/java/org/jboss/beach/lambchops/client/Client.java:114-118 | On a new connection no capturing class is ever shipped twice, whatever sequence of sends succeeds or fails. |
| ServerDispatch.Fresh | server/src/main/java/org/jboss/beach/lambchops/server/Server.java:53 | Each connection starts open with its own loader. That loader has defined nothing and resolved nothing, and nothing has been written or run. |
| ServerDispatch.Resolve | server/src/main/java/org/jboss/beach/lambchops/server/Server.java:57-63 | A name resolves if and only if the connection's loader defined it or the default lookup knows it. A defined class wins over a default one of the same name. |
| ServerDispatch.FirstUnresolved | server/src/main/java/org/jboss/beach/lambchops/server/Server.java:57-63 | It finds an unresolved name if and only if some needed class resolves neither in the registry nor by default. The name it reports is one of those. |
| ServerDispatch.Dispatch | server/src/main/java/org/jboss/beach/lambchops/server/Server.java:68-79 | The loader first records the classes a payload's stream named that it found by default; a definition read records none. A definition registers its name, and writes no reply, if and only if the loader has neither defined nor resolved that name. Otherwise the registry is unchanged and the state becomes unspecified (the LinkageError). Callable takes priority over Runnable. A returning call is recorded and its value written and flushed. A run writes nothing. A payload stops the loop if and only if its call or run throws. It then writes nothing and runs nothing, and closes cleanly for an EOFException and as failed for any other exception, naming that cause. An object that is neither is only logged. |
| ServerDispatch.RepliedShape | server/src/main/java/org/jboss/beach/lambchops/server/Server.java:73-74 | In the server's output, reply i sits at position 2i and the flush right after it. |
| ServerDispatch.CallableReplied | server/src/main/java/org/jboss/beach/lambchops/server/Server.java:71-74 | A Callable whose call() returns v writes v and a flush, records the call, and the loop continues. |
| ServerDispatch.RunnableRan | server/src/main/java/org/jboss/beach/lambchops/server/Server.java:75-76 | A Runnable that is not Callable and whose run() completes is run once, writes nothing, and the loop continues. |
| ServerDispatch.Step | server/src/main/java/org/jboss/beach/lambchops/server/Server.java:55-85 | A read cut off inside an object closes cleanly. Any other broken read closes as failed. An unresolved class closes as failed, naming a class of the message that resolves nowhere. When every class resolves, the step is `Dispatch`. A step closes cleanly only through an EOFException, and always stops on one. A stopping step changes neither registry, output nor executions. Only a read defining a class can end in the unspecified state, and only for that class. The loader resolves by default only classes the default lookup knows. |
| ServerDispatch.Serve | server/src/main/java/org/jboss/beach/lambchops/server/Server.java:67-80 | The loop reads nothing once closed, and is still open only if it started open. Output and executions only grow. Names are only ever added to those the loader resolved by default, and only known built-in ones. |
| ServerDispatch.Connection | server/src/main/java/org/jboss/beach/lambchops/server/Server.java:53-86 | A connection always ends, with the loop's registry, output and executions. Running out of stream with the loop still open ends it cleanly (the "Goodbye" path). Otherwise it ends as the loop stopped. A clean end therefore means the stream ran out or some read raised an EOFException, which can be mid-stream. It can also end as failed, or in the unspecified state, which only a read defining that same class again can cause. |
| ServerDispatch.ServeUnspecifiedOnlyOnRedefine | server/src/main/java/org/jboss/beach/lambchops/server/Server.java:69-70 | The loop ends in the unspecified (LinkageError) state only at a read that defines a class of that name. |
| ServerDispatch.ServeRepliesMatchCalls | server/src/main/java/org/jboss/beach/lambchops/server/Server.java:71-74 | The output is always exactly one reply per call() that returned, carrying its value, each followed by a flush, in call order. |
| ServerDispatch.ServeCallsEveryCallable | server/src/main/java/org/jboss/beach/lambchops/server/Server.java:67-80 | While the loop stays open, every Callable read has been called. |
| ServerDispatch.ServeCleanOnlyOnEof | server/src/main/java/org/jboss/beach/lambchops/server/Server.java:67-82 | The loop closes a connection cleanly only if some read raised an EOFException: a cut-off object, or a closure that threw one. |
| ServerDispatch.BeforeEof | server/src/main/java/org/jboss/beach/lambchops/server/Server.java:67-82 | The reads before the first one that raises an EOFException: a prefix of the stream in which none raises it, followed in the stream by one that does, if any is left. |
| ServerDispatch.CleanConnectionReplies | server/src/main/java/org/jboss/beach/lambchops/server/Server.java:67-82 | A cleanly closed connection wrote one reply per Callable read before the EOFException that ended it, each carrying its call's value. |
| ServerDispatch.ServeRegistryFromStream | server/src/main/java/org/jboss/beach/lambchops/server/Server.java:69-70 | The registry only grows and only by names the stream defines. A defined class is never replaced. |
| ServerDispatch.RegistryIsolation | server/src/main/java/org/jboss/beach/lambchops/server/Server.java:53 | Each connection starts with an empty registry, so a name its own stream never defines resolves only by the default lookup. |
| ServerDispatch.ConnectionsShareNoClasses | server/src/main/java/org/jboss/beach/lambchops/server/Server.java:50-53 | A class registered on one connection was defined by that connection's own stream, and does not resolve on another connection that never defined it. |
| ServerDispatch.UnknownMessageSkipped | server/src/main/java/org/jboss/beach/lambchops/server/Server.java:77-79 | An object that is neither a definition, a Callable nor a Runnable leaves registry, output and executions unchanged, and the loop goes on. The loader only records the classes it found by default. |
| ServerDispatch.CallFailureEndsConnection | server/src/main/java/org/jboss/beach/lambchops/server/Server.java:72-85 | A call() that throws ends the connection and writes no reply for it, and nothing after it is read. The connection closes cleanly if it threw an EOFException, and as failed with that cause otherwise. |
| ServerDispatch.DefineKeepsResolution | server/src/main/java/org/jboss/beach/lambchops/server/Server.java:57-70 | Defining a name the loader has neither defined nor resolved keeps the loop open. The name then resolves to the shipped bytes, even over a default class of that name, and every other name resolves as before. |
| ServerDispatch.DefineAfterDefaultResolution | server/src/main/java/org/jboss/beach/lambchops/server/Server.java:57-70 | Once a read has resolved a name through the default lookup, a later definition of that name is a duplicate for the loader, and the connection ends in the unspecified state (LinkageError). |
| EndToEnd.PerformShips | client/src/main/java/org/jboss/beach/lambchops/client/Client.java:84-92 | Both overloads write exactly what `sendObject` writes. |
| EndToEnd.Delivered | server/src/main/java/org/jboss/beach/lambchops/server/Server.java:68 | The server reads an object if and only if the client wrote it, and nothing else: a single write delivers its object, and a flush delivers nothing. |
| EndToEnd.DeliveredAppend | server/src/main/java/org/jboss/beach/lambchops/server/Server.java:67-80 | Order: what the server reads of two pieces of output, one after the other, is what it reads of the first followed by what it reads of the second. |
| EndToEnd.DryPassNames | client/src/main/java/org/jboss/beach/lambchops/client/Client.java:114-118 | The definitions one send ships carry distinct binary names, none the binary name of a class sent earlier on the connection. |
| EndToEnd.ServeDefinitions | server/src/main/java/org/jboss/beach/lambchops/server/Server.java:69-70 | Fresh, distinct definitions all land in the registry and write nothing. |
| EndToEnd.ServeShippedDefinitions | server/src/main/java/org/jboss/beach/lambchops/server/Server.java:69-70 | The definitions of a send keep an open server in step: its registry names become the binary names of the new sent-set. |
| EndToEnd.ServeShippedPayload | server/src/main/java/org/jboss/beach/lambchops/server/Server.java:57-68 | After a completed send's definitions, every class of a self-contained payload resolves, so the payload is dispatched. |
| EndToEnd.ServeCompletedSend | client/src/main/java/org/jboss/beach/lambchops/client/Client.java:124-133 | A completed send reaches the server as definitions that are registered without a reply, followed by one dispatch of the payload. |
| EndToEnd.FailedSendDefinesOnly | client/src/main/java/org/jboss/beach/lambchops/client/Client.java:109-118 | A failed send reaches the server as its definitions only. These keep the server open with the grown sent-set registered. |
| EndToEnd.ShipInStep | server/src/main/java/org/jboss/beach/lambchops/server/Server.java:57-70 | A send keeps client and server in step. The server's registry is the binary sent-set, it has resolved by default only built-in classes, and it can only have closed because a closure threw. |
| EndToEnd.ShipInStepOpen | server/src/main/java/org/jboss/beach/lambchops/server/Server.java:57-79 | Same as ShipInStep, for a server that is open before the send. |
| EndToEnd.ProtocolResolves | client/src/main/java/org/jboss/beach/lambchops/client/Client.java:114-133 | Consider any session whose payloads need only built-in classes and their own lambdas' capturing classes, where none of those capturing classes is built into the server. The server reading that connection never misses a class and never sees a duplicate definition. It ends cleanly or because a closure threw. |
| EndToEnd.CallRoundTrip | server/src/main/java/org/jboss/beach/lambchops/server/Server.java:71-74 | A completed Callable send makes the server write exactly its value and a flush, and `send(Callable)` returns that value. |
| EndToEnd.RunRoundTrip | server/src/main/java/org/jboss/beach/lambchops/server/Server.java:75-76 | A completed Runnable send makes the server run it once and write nothing, and `send(Runnable)` completes. |
| EndToEnd.RunnableOverloadLeavesReply | client/src/main/java/org/jboss/beach/lambchops/client/Client.java:90-92 | A closure that is both Callable and Runnable, sent through `send(Runnable)`, is called by the server. Its reply is written but not read by that send. |
| EndToEnd.CompletedSendAddsCaptures | client/src/main/java/org/jboss/beach/lambchops/client/Client.java:111-119 | A completed send adds exactly the capturing classes of the visited lambdas to the sent-set. |
| EndToEnd.ShipAddsCaptures | client/src/main/java/org/jboss/beach/lambchops/client/Client.java:111-119 | On any connection, a completed send adds exactly the visited lambdas' capturing classes to the sent-set. |
| EndToEnd.FirstSendAddsCaptures | client/src/main/java/org/jboss/beach/lambchops/client/Client.java:54 | On a new connection, a completed first send leaves exactly the visited lambdas' capturing classes sent. |
| EndToEnd.FirstCallRoundTrip | server/src/main/java/org/jboss/beach/lambchops/server/Server.java:71-74 | The first, completed Callable send on a new connection: the server replies with the call's value, flushed, and closes cleanly at end of stream, and `send(Callable)` returns that value. |
| EndToEnd.FirstRunRoundTrip | server/src/main/java/org/jboss/beach/lambchops/server/Server.java:75-76 | The first, completed Runnable send on a new connection is run once, with no reply, and the connection closes cleanly. |
| EndToEnd.TestShipsTestClass | client/src/test/java/org/jboss/beach/lambchops/client/SimpleTestCase.java:38-41 | A test lambda's first send ships exactly its capturing class, `SimpleTestCase`. |
| EndToEnd.TestCallable | client/src/test/java/org/jboss/beach/lambchops/client/SimpleTestCase.java:37-44 | The lambda returning "The result": the server replies "The result", flushed, and closes cleanly, and `send` returns "The result". |
| EndToEnd.TestRunnable | client/src/test/java/org/jboss/beach/lambchops/client/SimpleTestCase.java:47-53 | The Runnable lambda is run once, with no reply, the connection closes cleanly, and `send` completes. |

## Left out

- Sockets, the accept loop, per-connection threads, the port constant 14879, `close()` and logging are not modelled. A connection is one client state and one server state.
- Java serialization itself, its byte format and the object graph are abstracted. A traversal is given as the sequence of objects handed to `replaceObject`. A payload is given as the class names it needs resolved plus its Callable/Runnable behaviour.
- Reflection is replaced by data: `getProtectionDomain().getCodeSource()`, `isAssignableFrom` and `getCapturingClass()` become fields of a visit.
- `ClassDefinition.java` is not part of this model. Its two properties (class name, class bytes) are the `Wire.ClassDefinition` datatype.
- ResourceLoad.Load: the 4096-byte buffer is not modelled. A chunk is whatever one `read(buffer)` returns, so chunk sizes are not bounded by 4096.
- Write failures on the client's or server's output, and `IOException`s other than from a resource's `read`, are not modelled. A missing class resource is not an `IOException`: `getResource` returns null, and `load(null)` then throws a `NullPointerException` at Client.java line 71 (`MissingResource`).
- Shipper.SendObjectCompletes: an object that is not `Serializable` has no code source, so the hook lets it through. The serialization that follows throws `NotSerializableException`, and the send fails. The model's visits are the serializable objects of a graph that does serialize, so this failure is not modelled. "Completes if and only if every visit is acceptable" holds under that reading.
- On the client, the reply's own class resolution (`ClassNotFoundException` when reading a reply) is not modelled: a reply is a value.
- A class definition whose bytes are not a valid class file is not modelled: `defineClass` is taken to succeed for a fresh name.
- ServerDispatch.Dispatch: defining a name the loader already defined, or already resolved through the default lookup, makes `defineClass` throw a `LinkageError`. That is an `Error`, not an `Exception`, so neither catch clause handles it and the thread dies without either log line. This terminal state is modelled as `Unspecified(name)`, and nothing more is said about it.
- ServerDispatch.Dispatch: `initiated` holds only the classes named in a payload's stream. Reading a `ClassDefinition` also resolves `org.jboss.beach.lambchops.common.ClassDefinition` through the loader (Server.java line 60), and linking shipped code initiates further classes. The JVM records the loader for those too, so a later definition of such a name throws `LinkageError`. The model does not record them: it lets the loop register such a name, where the source would reach the `Unspecified` state.
- ServerDispatch.Dispatch: a definition whose name starts with `java.` makes `defineClass` throw a `SecurityException`, which ends the connection as failed. The model does not single out those names and registers them like any other.
- ServerDispatch.Dispatch: an `Error` thrown by `call()` or `run()` is caught by neither clause. `NoClassDefFoundError` for a class that was never shipped is an example. The thread then dies without a log line, as with the `LinkageError` above. The model treats every throwable other than an `EOFException` as the failure `CallRaised`/`RunRaised`, so in this case it differs from the source in the (unmodelled) log line and the rethrow.
- ServerDispatch.Step: a `ClassNotFoundException` while reading is caught by the general `catch (Exception)`, so it ends the whole connection as failed (the source's behaviour). The model does not mark that one read as failed and carry on.
- ClientChannel.SendCallable: an empty inbox stands only for a peer that closed its end, so the read ends in `EOFException` (`NoReply`). The server never closes `clientSocket` on either exit path. After a clean exit (the `EOFException` catch, Server.java lines 81-82, for instance a `call()` that threw one) and after a failure (Server.java lines 83-85), the client's `readObject` (Client.java line 86) blocks rather than ending in `NoReply`. That hang is not modelled: the model's clean or failed server close does not imply that the client observes an end of stream.
- ServerDispatch.Connection: a reply value that is not serializable (`NotSerializableException` on write) is not modelled. Replies are always written.
- EndToEnd.Delivered: the client flushes only after the payload and never after a definition. The model takes every written object to reach the server in order, since the client's `close()` flushes the rest. How the server reads in between flushes is not modelled.
- EndToEnd.ProtocolResolves: capturing class names are assumed to be in the JVM's internal form (no '.'), which `getCapturingClass()` always returns. `Wire.DottedCollision` shows why: "a/b" and "a.b" would collide once converted.
- EndToEnd.ProtocolResolves: the session's capturing classes are assumed not to be built into the server under the same binary name (`EndToEnd.Foreign`). Otherwise a payload could make the server resolve such a class by default before the client ships it, and the later definition would end the connection with a `LinkageError` (`ServerDispatch.DefineAfterDefaultResolution`).
- Concurrency between connections is not modelled beyond registry isolation. Each connection is handled alone.
