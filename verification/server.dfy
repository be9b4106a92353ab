/**
  The server's per-connection worker: a fresh class registry (the connection's
  own class loader), class resolution that tries that registry before the
  default lookup, and the loop that reads one object at a time and routes it
  by capability until end of stream or an exception.
 */
module ServerDispatch {
  import opened Wrappers
  import opened Wire

  /** The classes defined by this connection's loader: binary name to class bytes. */
  type Registry = map<string, seq<byte>>

  /** Where a resolved class comes from. */
  datatype Origin = Shipped(classBytes: seq<byte>) | BuiltIn

  /** Why a connection ended as failed: any exception other than an EOFException. */
  datatype Fault =
    | StreamBroken(cause: string)    // readObject threw something other than EOFException
    | ClassNotFound(name: string)    // neither the registry nor the default lookup knows a class
    | CallRaised(thrown: Thrown)     // call() threw
    | RunRaised(thrown: Thrown)      // run() threw

  /**
    Open while the loop runs; an EOFException from anywhere in the loop closes
    it cleanly. Defining a name this connection's loader has already defined,
    or has already resolved through the default lookup (the JVM records the
    loader as an initiating loader of that class), raises a LinkageError, an
    Error the worker does not catch; the model makes no claim about what
    follows and stops in `Unspecified`.
   */
  datatype Status = Open | ClosedClean | ClosedFailed(failure: Fault) | Unspecified(name: string)

  /** A closure the worker invoked to completion. */
  datatype Execution = Called(id: nat, value: Value) | Ran(id: nat)

  /** What the worker does to its output channel. */
  datatype ReplyEvent = Reply(value: Value) | ReplyFlush

  /**
    The worker's state: the classes its loader defined, the names its loader
    resolved through the default lookup, what it wrote, what it ran, and
    whether the loop still runs.
   */
  datatype Conn = Conn(registry: Registry, initiated: set<string>, out: seq<ReplyEvent>, executed: seq<Execution>, status: Status)

  /**
    One `readObject` outcome; the end of the sequence is end of stream.
    `Truncated` is an EOFException part-way through an object, `Unreadable`
    any other exception from the stream.
   */
  datatype Incoming = Received(message: Message) | Truncated | Unreadable(cause: string)

  /** Each connection starts with its own loader, which has loaded nothing yet. */
  function Fresh(): (r: Conn)
    ensures r.status.Open? && r.registry == map[] && r.initiated == {}
    ensures r.out == [] && r.executed == []
  {
    Conn(map[], {}, [], [], Open)
  }

  /** The default lookup: classes the server itself can load. */
  function DefaultResolve(builtin: set<string>, name: string): Option<Origin>
  {
    if name in builtin then Some(BuiltIn) else None
  }

  /** `resolveClass`: the connection's loader first, then the default lookup. */
  function Resolve(registry: Registry, builtin: set<string>, name: string): (r: Option<Origin>)
    ensures r.Some? <==> name in registry || name in builtin
    ensures name in registry ==> r == Some(Shipped(registry[name]))
    ensures name !in registry && name in builtin ==> r == Some(BuiltIn)
  {
    if name in registry then Some(Shipped(registry[name])) else DefaultResolve(builtin, name)
  }

  /** The first class, in stream order, that does not resolve. */
  function FirstUnresolved(registry: Registry, builtin: set<string>, names: seq<string>): (r: Option<string>)
    ensures r.None? <==> forall i :: 0 <= i < |names| ==> Resolve(registry, builtin, names[i]).Some?
    ensures r.Some? ==> r.value in names && Resolve(registry, builtin, r.value).None?
  {
    if names == [] then None
    else if Resolve(registry, builtin, names[0]).None? then Some(names[0])
    else
      var rest := FirstUnresolved(registry, builtin, names[1..]);
      assert forall i :: 1 <= i < |names| ==> names[i] == names[1..][i - 1];
      rest
  }

  /** The values a sequence of completed calls returned, in order. */
  function CalledValues(executed: seq<Execution>): seq<Value>
  {
    if executed == [] then []
    else (if executed[0].Called? then [executed[0].value] else []) + CalledValues(executed[1..])
  }

  /** Each value written as a reply and then flushed. */
  function Replied(values: seq<Value>): seq<ReplyEvent>
  {
    if values == [] then [] else [Reply(values[0]), ReplyFlush] + Replied(values[1..])
  }

  /** The names among `names` that the connection's loader resolves through the default lookup. */
  function DefaultResolved(registry: Registry, names: seq<string>): set<string>
  {
    set n | n in names && n !in registry
  }

  /** The exception a payload's invocation throws: call() for a Callable, otherwise run() for a Runnable. */
  function Raised(p: Payload): Option<Thrown>
  {
    if p.call.Some? then (if p.call.value.Throws? then Some(p.call.value.cause) else None)
    else if p.run.Some? && p.run.value.Raises? then Some(p.run.value.cause)
    else None
  }

  /** Value i is written at position 2i and flushed right after. */
  lemma {:induction false} RepliedShape(values: seq<Value>)
    ensures |Replied(values)| == 2 * |values|
    ensures forall i :: 0 <= i < |values| ==>
              Replied(values)[2 * i] == Reply(values[i]) && Replied(values)[2 * i + 1] == ReplyFlush
  {
    if values != [] {
      RepliedShape(values[1..]);
      var r := Replied(values);
      forall i | 1 <= i < |values|
        ensures r[2 * i] == Reply(values[i]) && r[2 * i + 1] == ReplyFlush
      {
        assert values[i] == values[1..][i - 1];
        assert r[2 * i] == Replied(values[1..])[2 * (i - 1)];
        assert r[2 * i + 1] == Replied(values[1..])[2 * (i - 1) + 1];
      }
    }
  }

  /** An exception ends the loop: cleanly for an EOFException, as failed otherwise. */
  function Ended(cause: Thrown, fault: Fault): Status
  {
    if cause.endOfStream then ClosedClean else ClosedFailed(fault)
  }

  /**
    The handling of one object whose classes all resolved: the loader records
    the classes it found through the default lookup; then a class definition
    is defined in the registry; otherwise a Callable is called and its value
    written back and flushed; otherwise a Runnable is run; otherwise the
    object is only logged.
   */
  function Dispatch(c: Conn, m: Message): (r: Conn)
    requires c.status.Open?
    ensures r.initiated == c.initiated + DefaultResolved(c.registry, ClassesOf(m))
    ensures forall n :: n in c.registry ==> n in r.registry && r.registry[n] == c.registry[n]
    ensures m.Send? ==> r.registry == c.registry
    ensures m.Define? ==> r.out == c.out && r.executed == c.executed
    ensures m.Define? ==>
              (r.status.Open? <==> m.definition.className !in c.registry && m.definition.className !in c.initiated)
    ensures m.Define? && r.status.Open? ==>
              r.registry == c.registry[m.definition.className := m.definition.classBytes]
    ensures m.Define? && !r.status.Open? ==>
              r.status == Unspecified(m.definition.className) && r.registry == c.registry
    ensures c.executed <= r.executed && |r.executed| <= |c.executed| + 1
    ensures r.out == c.out + Replied(CalledValues(r.executed[|c.executed|..]))
    ensures forall i :: |c.executed| <= i < |r.executed| ==>
              m.Send? && r.executed[i].id == m.payload.id
              && (r.executed[i].Ran? <==> m.payload.call.None?)
    ensures m.Send? && m.payload.call.Some? && m.payload.call.value.Returns? ==>
              r.executed == c.executed + [Called(m.payload.id, m.payload.call.value.result)]
    ensures m.Send? && m.payload.call.None? && m.payload.run == Some(Completes) ==>
              r.executed == c.executed + [Ran(m.payload.id)]
    ensures m.Send? && m.payload.call.None? && m.payload.run.None? ==> r == c.(initiated := r.initiated)
    ensures m.Send? ==> (r.status.Open? <==> Raised(m.payload).None?)
    ensures m.Send? && !r.status.Open? ==> r.out == c.out && r.executed == c.executed
    ensures m.Send? && r.status.ClosedClean? <==> m.Send? && Raised(m.payload).Some? && Raised(m.payload).value.endOfStream
    ensures m.Send? && Raised(m.payload).Some? && !Raised(m.payload).value.endOfStream ==> r.status.ClosedFailed?
    ensures r.status.ClosedFailed? ==>
              && m.Send? && Raised(m.payload).Some? && !Raised(m.payload).value.endOfStream
              && r.status.failure == (if m.payload.call.Some? then CallRaised(Raised(m.payload).value)
                                      else RunRaised(Raised(m.payload).value))
  {
    var c := c.(initiated := c.initiated + DefaultResolved(c.registry, ClassesOf(m)));
    match m
    case Define(d) =>
      if d.className in c.registry || d.className in c.initiated then c.(status := Unspecified(d.className))
      else c.(registry := c.registry[d.className := d.classBytes])
    case Send(p) =>
      if p.call.Some? then
        match p.call.value
        case Returns(v) =>
          var executed := c.executed + [Called(p.id, v)];
          assert executed[|c.executed|..] == [Called(p.id, v)];
          c.(out := c.out + [Reply(v), ReplyFlush], executed := executed)
        case Throws(cause) =>
          c.(status := Ended(cause, CallRaised(cause)))
      else if p.run.Some? then
        match p.run.value
        case Completes =>
          var executed := c.executed + [Ran(p.id)];
          assert executed[|c.executed|..] == [Ran(p.id)];
          c.(executed := executed)
        case Raises(cause) =>
          c.(status := Ended(cause, RunRaised(cause)))
      else c
  }

  /** A Callable whose call() returns v: v is written back and flushed, and the loop goes on. */
  lemma CallableReplied(c: Conn, p: Payload, v: Value)
    requires c.status.Open? && p.call == Some(Returns(v))
    ensures var r := Dispatch(c, Send(p));
            && r.status.Open? && r.registry == c.registry
            && r.out == c.out + [Reply(v), ReplyFlush]
            && r.executed == c.executed + [Called(p.id, v)]
  {
  }

  /** A Runnable (that is not Callable) whose run() completes is run once, writing nothing. */
  lemma RunnableRan(c: Conn, p: Payload)
    requires c.status.Open? && p.call.None? && p.run == Some(Completes)
    ensures var r := Dispatch(c, Send(p));
            && r.status.Open? && r.registry == c.registry
            && r.out == c.out
            && r.executed == c.executed + [Ran(p.id)]
  {
  }

  /** A payload never changes the registry, and ends the loop only through its closure throwing. */
  lemma PayloadKeepsRegistry(c: Conn, p: Payload)
    requires c.status.Open?
    ensures var r := Dispatch(c, Send(p));
            && r.registry == c.registry
            && (|| r.status.Open? || r.status.ClosedClean?
                || (r.status.ClosedFailed? && (r.status.failure.CallRaised? || r.status.failure.RunRaised?)))
  {
  }

  /** The class names a message's stream needs resolved. */
  function ClassesOf(m: Message): seq<string>
  {
    match m
    case Define(_) => []
    case Send(p) => p.classes
  }

  /**
    A read that ends the loop through an EOFException: the stream cut off
    inside an object, or a closure that throws one.
   */
  predicate EndsByEof(incoming: Incoming)
  {
    || incoming.Truncated?
    || (incoming.Received? && incoming.message.Send?
        && Raised(incoming.message.payload).Some? && Raised(incoming.message.payload).value.endOfStream)
  }

  /** A read of a definition of the class `name`. */
  predicate Redefines(incoming: Incoming, name: string)
  {
    incoming.Received? && incoming.message.Define? && incoming.message.definition.className == name
  }

  /** One turn of the loop: read (resolving classes), then dispatch. */
  function Step(c: Conn, builtin: set<string>, incoming: Incoming): (r: Conn)
    requires c.status.Open?
    ensures r.status.ClosedClean? ==> EndsByEof(incoming)
    ensures EndsByEof(incoming) ==> !r.status.Open?
    ensures incoming.Truncated? ==> r == c.(status := ClosedClean)
    ensures incoming.Unreadable? ==> r == c.(status := ClosedFailed(StreamBroken(incoming.cause)))
    ensures r.registry.Keys <= c.registry.Keys + DefinedNames([incoming])
    ensures c.initiated <= r.initiated && r.initiated <= c.initiated + builtin
    ensures c.out <= r.out && c.executed <= r.executed
    ensures incoming.Received? && (exists n :: n in ClassesOf(incoming.message) && Resolve(c.registry, builtin, n).None?) ==>
              r.status.ClosedFailed? && r.status.failure.ClassNotFound?
    ensures r.status.ClosedFailed? && r.status.failure.ClassNotFound? ==>
              && incoming.Received?
              && r.status.failure.name in ClassesOf(incoming.message)
              && Resolve(c.registry, builtin, r.status.failure.name).None?
    ensures !r.status.Open? ==> r.registry == c.registry && r.out == c.out && r.executed == c.executed
    ensures r.status.Unspecified? ==> Redefines(incoming, r.status.name)
    ensures incoming.Received? && (forall n :: n in ClassesOf(incoming.message) ==> Resolve(c.registry, builtin, n).Some?) ==>
              r == Dispatch(c, incoming.message)
  {
    match incoming
    case Truncated => c.(status := ClosedClean)
    case Unreadable(cause) => c.(status := ClosedFailed(StreamBroken(cause)))
    case Received(m) =>
      match FirstUnresolved(c.registry, builtin, ClassesOf(m))
      case Some(name) => c.(status := ClosedFailed(ClassNotFound(name)))
      case None => Dispatch(c, m)
  }

  /** The loop over the objects read so far; it stops at the first non-open status. */
  function Serve(c: Conn, builtin: set<string>, stream: seq<Incoming>): (r: Conn)
    ensures !c.status.Open? ==> r == c
    ensures r.status.Open? ==> c.status.Open?
    ensures c.out <= r.out && c.executed <= r.executed
    ensures c.initiated <= r.initiated && r.initiated <= c.initiated + builtin
    decreases |stream|
  {
    if stream == [] || !c.status.Open? then c
    else Serve(Step(c, builtin, stream[0]), builtin, stream[1..])
  }

  /**
    The whole connection: a fresh registry, the loop, and end of stream (the
    end of the sequence) closing it cleanly when nothing failed before.
   */
  function Connection(builtin: set<string>, stream: seq<Incoming>): (r: Conn)
    ensures !r.status.Open?
    ensures Serve(Fresh(), builtin, stream).status.Open? ==> r.status == ClosedClean
    ensures r.status.ClosedClean? ==>
              Serve(Fresh(), builtin, stream).status.Open? || exists i :: 0 <= i < |stream| && EndsByEof(stream[i])
    ensures r.status.Unspecified? ==> exists i :: 0 <= i < |stream| && Redefines(stream[i], r.status.name)
    ensures !Serve(Fresh(), builtin, stream).status.Open? ==> r.status == Serve(Fresh(), builtin, stream).status
    ensures var s := Serve(Fresh(), builtin, stream);
            r.registry == s.registry && r.out == s.out && r.executed == s.executed
  {
    ServeCleanOnlyOnEof(Fresh(), builtin, stream);
    ServeUnspecifiedOnlyOnRedefine(Fresh(), builtin, stream);
    var c := Serve(Fresh(), builtin, stream);
    if c.status.Open? then c.(status := ClosedClean) else c
  }

  lemma {:induction false} ServeAppend(c: Conn, builtin: set<string>, a: seq<Incoming>, b: seq<Incoming>)
    ensures Serve(c, builtin, a + b) == Serve(Serve(c, builtin, a), builtin, b)
    decreases |a|
  {
    if a == [] {
      assert a + b == b;
    } else if c.status.Open? {
      assert (a + b)[0] == a[0];
      assert (a + b)[1..] == a[1..] + b;
      ServeAppend(Step(c, builtin, a[0]), builtin, a[1..], b);
    }
  }

  lemma {:induction false} CalledValuesAppend(a: seq<Execution>, b: seq<Execution>)
    ensures CalledValues(a + b) == CalledValues(a) + CalledValues(b)
  {
    if a == [] {
      assert a + b == b;
    } else {
      var head: seq<Value> := if a[0].Called? then [a[0].value] else [];
      assert (a + b)[0] == a[0];
      assert (a + b)[1..] == a[1..] + b;
      assert CalledValues(a + b) == head + CalledValues(a[1..] + b);
      CalledValuesAppend(a[1..], b);
      assert head + (CalledValues(a[1..]) + CalledValues(b)) == (head + CalledValues(a[1..])) + CalledValues(b);
    }
  }

  lemma {:induction false} RepliedAppend(a: seq<Value>, b: seq<Value>)
    ensures Replied(a + b) == Replied(a) + Replied(b)
  {
    if a == [] {
      assert a + b == b;
    } else {
      assert (a + b)[1..] == a[1..] + b;
      RepliedAppend(a[1..], b);
    }
  }

  /** The worker's output is exactly one flushed reply per completed call, in order. */
  predicate RepliesMatchCalls(c: Conn)
  {
    c.out == Replied(CalledValues(c.executed))
  }

  /**
    Replies are counted against Callables: whatever the loop reads, what it
    has written is one reply per call() that returned, carrying that value,
    each followed by a flush, in the order the calls ran.
   */
  lemma {:induction false} ServeRepliesMatchCalls(c: Conn, builtin: set<string>, stream: seq<Incoming>)
    requires RepliesMatchCalls(c)
    ensures RepliesMatchCalls(Serve(c, builtin, stream))
    decreases |stream|
  {
    if stream != [] && c.status.Open? {
      var next := Step(c, builtin, stream[0]);
      if stream[0].Received? && FirstUnresolved(c.registry, builtin, ClassesOf(stream[0].message)).None? {
        assert next == Dispatch(c, stream[0].message);
        assert next.executed == c.executed + next.executed[|c.executed|..];
        CalledValuesAppend(c.executed, next.executed[|c.executed|..]);
        RepliedAppend(CalledValues(c.executed), CalledValues(next.executed[|c.executed|..]));
      }
      ServeRepliesMatchCalls(next, builtin, stream[1..]);
    }
  }

  /** The number of Callable payloads in a stream. */
  function Callables(stream: seq<Incoming>): nat
  {
    if stream == [] then 0
    else (if stream[0].Received? && stream[0].message.Send? && stream[0].message.payload.call.Some? then 1 else 0)
         + Callables(stream[1..])
  }

  /** The number of Callable payloads in one read. */
  function CallableCount(incoming: Incoming): nat
  {
    if incoming.Received? && incoming.message.Send? && incoming.message.payload.call.Some? then 1 else 0
  }

  /** A step that keeps the loop open calls exactly the Callables it read. */
  lemma StepCallsCallable(c: Conn, builtin: set<string>, incoming: Incoming)
    requires c.status.Open? && Step(c, builtin, incoming).status.Open?
    ensures |CalledValues(Step(c, builtin, incoming).executed)| == |CalledValues(c.executed)| + CallableCount(incoming)
  {
    var next := Step(c, builtin, incoming);
    assert incoming.Received?;
    var m := incoming.message;
    assert next == Dispatch(c, m);
    assert next.executed == c.executed + next.executed[|c.executed|..];
    CalledValuesAppend(c.executed, next.executed[|c.executed|..]);
    if |next.executed| > |c.executed| {
      assert next.executed[|c.executed|..] == [next.executed[|c.executed|]];
    } else {
      assert next.executed[|c.executed|..] == [];
    }
  }

  /** While the loop stays open, every Callable read was called and returned. */
  lemma {:induction false} ServeCallsEveryCallable(c: Conn, builtin: set<string>, stream: seq<Incoming>)
    requires c.status.Open?
    requires Serve(c, builtin, stream).status.Open?
    ensures |CalledValues(Serve(c, builtin, stream).executed)| == |CalledValues(c.executed)| + Callables(stream)
    decreases |stream|
  {
    if stream != [] {
      var next := Step(c, builtin, stream[0]);
      assert Serve(c, builtin, stream) == Serve(next, builtin, stream[1..]);
      assert next.status.Open?;
      assert Callables(stream) == CallableCount(stream[0]) + Callables(stream[1..]);
      StepCallsCallable(c, builtin, stream[0]);
      ServeCallsEveryCallable(next, builtin, stream[1..]);
    }
  }

  /**
    The loop closes a connection cleanly only through an EOFException: a read
    cut off inside an object, or a closure that throws one.
   */
  lemma {:induction false} ServeCleanOnlyOnEof(c: Conn, builtin: set<string>, stream: seq<Incoming>)
    requires !c.status.ClosedClean?
    ensures Serve(c, builtin, stream).status.ClosedClean? ==> exists i :: 0 <= i < |stream| && EndsByEof(stream[i])
    decreases |stream|
  {
    if stream != [] && c.status.Open? {
      var next := Step(c, builtin, stream[0]);
      if !next.status.ClosedClean? {
        ServeCleanOnlyOnEof(next, builtin, stream[1..]);
        if Serve(c, builtin, stream).status.ClosedClean? {
          var i :| 0 <= i < |stream[1..]| && EndsByEof(stream[1..][i]);
          assert stream[i + 1] == stream[1..][i];
        }
      }
    }
  }

  /** The loop ends in the unspecified state only at a read defining that class again. */
  lemma {:induction false} ServeUnspecifiedOnlyOnRedefine(c: Conn, builtin: set<string>, stream: seq<Incoming>)
    requires !c.status.Unspecified?
    ensures var r := Serve(c, builtin, stream);
            r.status.Unspecified? ==> exists i :: 0 <= i < |stream| && Redefines(stream[i], r.status.name)
    decreases |stream|
  {
    if stream != [] && c.status.Open? {
      var next := Step(c, builtin, stream[0]);
      if !next.status.Unspecified? {
        ServeUnspecifiedOnlyOnRedefine(next, builtin, stream[1..]);
        var r := Serve(c, builtin, stream);
        if r.status.Unspecified? {
          var i :| 0 <= i < |stream[1..]| && Redefines(stream[1..][i], r.status.name);
          assert stream[i + 1] == stream[1..][i];
        }
      }
    }
  }

  /** The reads before the first one that raises an EOFException. */
  function BeforeEof(stream: seq<Incoming>): (r: seq<Incoming>)
    ensures r <= stream
    ensures forall i :: 0 <= i < |r| ==> !EndsByEof(r[i])
    ensures |r| < |stream| ==> EndsByEof(stream[|r|])
  {
    if stream == [] || EndsByEof(stream[0]) then [] else [stream[0]] + BeforeEof(stream[1..])
  }

  /**
    Over a connection that closed cleanly, the replies written are exactly one
    per Callable read before the EOFException that ended it, each the value
    its call() returned.
   */
  lemma CleanConnectionReplies(builtin: set<string>, stream: seq<Incoming>)
    requires Connection(builtin, stream).status == ClosedClean
    ensures var r := Connection(builtin, stream);
            && r.out == Replied(CalledValues(r.executed))
            && |CalledValues(r.executed)| == Callables(BeforeEof(stream))
  {
    var before := BeforeEof(stream);
    var rest := stream[|before|..];
    assert stream == before + rest;
    ServeAppend(Fresh(), builtin, before, rest);
    var s := Serve(Fresh(), builtin, before);
    ServeCleanOnlyOnEof(Fresh(), builtin, before);
    assert s.status.Open?;
    ServeCallsEveryCallable(Fresh(), builtin, before);
    if rest != [] {
      assert Serve(s, builtin, rest) == Serve(Step(s, builtin, rest[0]), builtin, rest[1..]);
    }
    ServeRepliesMatchCalls(Fresh(), builtin, stream);
  }

  /** The names defined by the class definitions in a stream. */
  function DefinedNames(stream: seq<Incoming>): set<string>
  {
    if stream == [] then {}
    else (if stream[0].Received? && stream[0].message.Define?
          then {stream[0].message.definition.className} else {})
         + DefinedNames(stream[1..])
  }

  /** The loop only adds to the registry the classes its own stream defines. */
  lemma {:induction false} ServeRegistryFromStream(c: Conn, builtin: set<string>, stream: seq<Incoming>)
    ensures Serve(c, builtin, stream).registry.Keys <= c.registry.Keys + DefinedNames(stream)
    ensures forall n :: n in c.registry ==>
              n in Serve(c, builtin, stream).registry && Serve(c, builtin, stream).registry[n] == c.registry[n]
    decreases |stream|
  {
    if stream != [] && c.status.Open? {
      ServeRegistryFromStream(Step(c, builtin, stream[0]), builtin, stream[1..]);
    }
  }

  /**
    Registry isolation: a name that a connection's own stream never defines
    resolves there exactly as the default lookup resolves it, whatever any
    other connection has defined.
   */
  lemma RegistryIsolation(builtin: set<string>, stream: seq<Incoming>, name: string)
    requires name !in DefinedNames(stream)
    ensures Resolve(Connection(builtin, stream).registry, builtin, name) == DefaultResolve(builtin, name)
  {
    ServeRegistryFromStream(Fresh(), builtin, stream);
  }

  /**
    A class registered on one connection came from that connection's own
    stream; one the other connection never defined, and unknown to the
    default lookup, cannot be resolved there.
   */
  lemma ConnectionsShareNoClasses(builtin: set<string>, a: seq<Incoming>, b: seq<Incoming>, name: string)
    requires name in Connection(builtin, a).registry
    requires name !in DefinedNames(b) && name !in builtin
    ensures name in DefinedNames(a)
    ensures Resolve(Connection(builtin, b).registry, builtin, name).None?
  {
    ServeRegistryFromStream(Fresh(), builtin, a);
    RegistryIsolation(builtin, b, name);
  }

  /**
    An unrecognised message only gets logged: the loop carries on from the
    same registry, replies and executions as if it had not been read, its
    loader having only recorded the classes it found by the default lookup.
   */
  lemma UnknownMessageSkipped(c: Conn, builtin: set<string>, p: Payload, rest: seq<Incoming>)
    requires c.status.Open?
    requires p.call.None? && p.run.None?
    requires forall n :: n in p.classes ==> Resolve(c.registry, builtin, n).Some?
    ensures Serve(c, builtin, [Received(Send(p))] + rest)
         == Serve(c.(initiated := c.initiated + DefaultResolved(c.registry, p.classes)), builtin, rest)
  {
  }

  /**
    A Callable whose call() throws ends the connection, with no reply, error
    or otherwise, written for it and nothing after it read: cleanly when it
    threw an EOFException, as failed otherwise.
   */
  lemma CallFailureEndsConnection(builtin: set<string>, before: seq<Incoming>, p: Payload, cause: Thrown, after: seq<Incoming>)
    requires Serve(Fresh(), builtin, before).status.Open?
    requires p.call == Some(Throws(cause))
    requires forall n :: n in p.classes ==> Resolve(Serve(Fresh(), builtin, before).registry, builtin, n).Some?
    ensures var r := Connection(builtin, before + [Received(Send(p))] + after);
            && r.status == (if cause.endOfStream then ClosedClean else ClosedFailed(CallRaised(cause)))
            && r.out == Serve(Fresh(), builtin, before).out
            && r.executed == Serve(Fresh(), builtin, before).executed
  {
    var c := Serve(Fresh(), builtin, before);
    var stream := [Received(Send(p))] + after;
    ServeAppend(Fresh(), builtin, before, stream);
    assert before + [Received(Send(p))] + after == before + stream;
    CallFailureStops(c, builtin, p, cause, after);
  }

  lemma CallFailureStops(c: Conn, builtin: set<string>, p: Payload, cause: Thrown, after: seq<Incoming>)
    requires c.status.Open?
    requires p.call == Some(Throws(cause))
    requires forall n :: n in p.classes ==> Resolve(c.registry, builtin, n).Some?
    ensures var r := Serve(c, builtin, [Received(Send(p))] + after);
            && r.status == (if cause.endOfStream then ClosedClean else ClosedFailed(CallRaised(cause)))
            && r.out == c.out && r.executed == c.executed
  {
  }

  /**
    Defining a class never changes how any already resolvable name resolves,
    and makes the new name resolve to the shipped bytes, even when the default
    lookup knows a class of the same name that this connection has not yet
    resolved through it.
   */
  lemma DefineKeepsResolution(c: Conn, builtin: set<string>, d: ClassDefinition, name: string)
    requires c.status.Open?
    requires d.className !in c.registry && d.className !in c.initiated
    ensures var r := Dispatch(c, Define(d));
            && r.status.Open?
            && Resolve(r.registry, builtin, d.className) == Some(Shipped(d.classBytes))
            && (name != d.className ==> Resolve(r.registry, builtin, name) == Resolve(c.registry, builtin, name))
  {
  }

  /**
    Once a connection has resolved a name through the default lookup, a
    definition of that name is a duplicate for its loader: the JVM raises
    LinkageError.
   */
  lemma DefineAfterDefaultResolution(c: Conn, builtin: set<string>, p: Payload, d: ClassDefinition)
    requires c.status.Open? && Raised(p).None?
    requires forall n :: n in p.classes ==> Resolve(c.registry, builtin, n).Some?
    requires d.className in p.classes && d.className !in c.registry
    ensures Serve(c, builtin, [Received(Send(p)), Received(Define(d))]).status == Unspecified(d.className)
  {
  }
}
