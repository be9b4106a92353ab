/**
  The client and the server joined by one connection: the objects the client
  writes are the objects the server reads, in the same order. Flushes carry no
  object; buffered writes are taken to arrive (the client's close flushes them).
 */
module EndToEnd {
  import opened Wrappers
  import opened Wire
  import opened Shipper
  import opened ClientChannel
  import opened ServerDispatch
  import opened ResourceLoad

  /**
    What the server reads from a client's output: every object written, in
    order, and nothing else; a flush delivers nothing.
   */
  function Delivered(wire: seq<WireEvent>): (r: seq<Incoming>)
    ensures |r| <= |wire|
    ensures forall i :: 0 <= i < |r| ==> r[i].Received?
    ensures forall m :: Received(m) in r <==> Write(m) in wire
    ensures |wire| == 1 ==> r == (if wire[0].Write? then [Received(wire[0].message)] else [])
  {
    if wire == [] then []
    else (if wire[0].Write? then [Received(wire[0].message)] else []) + Delivered(wire[1..])
  }

  /** Order: what the server reads of `a + b` is what it reads of `a`, then of `b`. */
  lemma {:induction false} DeliveredAppend(a: seq<WireEvent>, b: seq<WireEvent>)
    ensures Delivered(a + b) == Delivered(a) + Delivered(b)
  {
    if a == [] {
      assert a + b == b;
    } else {
      var head: seq<Incoming> := if a[0].Write? then [Received(a[0].message)] else [];
      assert (a + b)[0] == a[0];
      assert (a + b)[1..] == a[1..] + b;
      assert Delivered(a + b) == head + Delivered(a[1..] + b);
      DeliveredAppend(a[1..], b);
      assert head + (Delivered(a[1..]) + Delivered(b)) == (head + Delivered(a[1..])) + Delivered(b);
    }
  }

  /** The reads of a sequence of class definitions. */
  function Definitions(definitions: seq<ClassDefinition>): seq<Incoming>
  {
    if definitions == [] then [] else [Received(Define(definitions[0]))] + Definitions(definitions[1..])
  }

  lemma {:induction false} DeliveredDefinitions(definitions: seq<ClassDefinition>)
    ensures Delivered(DefinitionWrites(definitions)) == Definitions(definitions)
  {
    if definitions != [] {
      var w := DefinitionWrites(definitions);
      assert w[1..] == DefinitionWrites(definitions[1..]);
      DeliveredDefinitions(definitions[1..]);
    }
  }

  /** Fresh, pairwise distinct definitions each land in the registry and nothing else happens. */
  lemma {:induction false} ServeDefinitions(s: Conn, builtin: set<string>, definitions: seq<ClassDefinition>, names: seq<string>)
    requires s.status.Open?
    requires |definitions| == |names| && Distinct(names)
    requires forall i :: 0 <= i < |names| ==>
               definitions[i].className == names[i] && names[i] !in s.registry && names[i] !in s.initiated
    ensures var r := Serve(s, builtin, Definitions(definitions));
            && r.status.Open?
            && r.registry.Keys == s.registry.Keys + Elems(names)
            && r.initiated == s.initiated && r.out == s.out && r.executed == s.executed
    decreases |definitions|
  {
    if definitions != [] {
      var stream := Definitions(definitions);
      assert stream[0] == Received(Define(definitions[0]));
      assert stream[1..] == Definitions(definitions[1..]);
      var next := Step(s, builtin, stream[0]);
      assert next == Dispatch(s, Define(definitions[0]));
      DistinctTail(names);
      ServeDefinitions(next, builtin, definitions[1..], names[1..]);
      assert Elems(names) == {names[0]} + Elems(names[1..]);
    }
  }

  /**
    No capturing class a traversal visits is built into the server under the
    same binary name: otherwise an earlier payload could have the server
    resolve it by default, and its later definition would be a duplicate.
   */
  predicate Foreign(builtin: set<string>, visits: seq<Visit>)
  {
    forall j :: 0 <= j < |visits| && IsLambda(visits[j]) ==> Dotted(visits[j].capturingClass) !in builtin
  }

  /** The rest of a distinct sequence is distinct and avoids its first element. */
  lemma DistinctTail<T>(names: seq<T>)
    requires names != [] && Distinct(names)
    ensures Distinct(names[1..])
    ensures forall i :: 0 <= i < |names[1..]| ==> names[1..][i] == names[i + 1] && names[1..][i] != names[0]
  {
  }

  /**
    Every class a payload needs is built into the server or is the capturing
    class (in binary form) of a lambda in the payload's own traversal, and
    those capturing classes are foreign to the server.
   */
  predicate SelfContained(builtin: set<string>, visits: seq<Visit>, payload: Payload)
  {
    && Foreign(builtin, visits)
    && forall n :: n in payload.classes ==>
         n in builtin || exists j :: 0 <= j < |visits| && IsLambda(visits[j]) && Dotted(visits[j].capturingClass) == n
  }

  /**
    Client and server agree: the wire carries each sent class once, an open
    server has defined exactly the binary forms of the client's sent-set and
    resolved by default only built-in classes, and the server has not failed
    on a class, a duplicate definition or the stream.
   */
  predicate InStep(c: Client, s: Conn, builtin: set<string>)
  {
    && ShippedOnce(c)
    && s.initiated <= builtin
    && (s.status.Open? ==> s.registry.Keys == DottedSet(c.sent))
    && !s.status.Unspecified?
    && (s.status.ClosedFailed? ==> s.status.failure.CallRaised? || s.status.failure.RunRaised?)
  }

  /** The payload write and its flush deliver the payload alone. */
  lemma DeliveredPayload(payload: Payload)
    ensures Delivered([Write(Send(payload)), Flush]) == [Received(Send(payload))]
  {
  }

  /** The names a traversal of internal captures ships are internal. */
  lemma DryPassShipsInternal(sent: set<string>, visits: seq<Visit>, resources: Resources)
    requires InternalCaptures(visits)
    ensures forall n :: n in DryPass(sent, visits, resources).shipped ==> InternalName(n)
  {
    DryPassShipsCaptured(sent, visits, resources);
    forall n | n in DryPass(sent, visits, resources).shipped
      ensures InternalName(n)
    {
      assert Captured(visits, n);
    }
  }

  /** What `sendObject` writes: the dry pass's definitions, then the payload and its flush when the pass completed. */
  lemma SendObjectTrace(sent: set<string>, visits: seq<Visit>, resources: Resources, payload: Payload)
    ensures var dry := DryPass(sent, visits, resources);
            var r := SendObject(sent, visits, resources, payload);
            && r.sent == dry.sent && r.error == dry.error
            && r.trace == DefinitionWrites(dry.definitions) + (if dry.error.None? then [Write(Send(payload)), Flush] else [])
  {
  }

  /**
    The definitions a dry pass ships carry pairwise distinct binary names, none
    the binary name of a class sent before.
   */
  lemma DryPassNames(sent: set<string>, visits: seq<Visit>, resources: Resources)
    requires forall n :: n in sent ==> InternalName(n)
    requires InternalCaptures(visits)
    ensures var dry := DryPass(sent, visits, resources);
            var names := DottedAll(dry.shipped);
            && |dry.definitions| == |names| && Distinct(names)
            && (forall i :: 0 <= i < |names| ==> dry.definitions[i].className == names[i] && names[i] !in DottedSet(sent))
            && Elems(names) == DottedSet(Elems(dry.shipped))
  {
    var dry := DryPass(sent, visits, resources);
    var names := DottedAll(dry.shipped);
    DryPassShipsInternal(sent, visits, resources);
    DottedAllDistinct(dry.shipped);
    DottedAllElems(dry.shipped);
    forall i | 0 <= i < |names|
      ensures dry.definitions[i].className == names[i] && names[i] !in DottedSet(sent)
    {
      assert dry.definitions[i] == DefinitionOf(resources, dry.shipped[i]);
      if names[i] in DottedSet(sent) {
        var n :| n in sent && Dotted(n) == names[i];
        assert dry.shipped[i] in dry.shipped;
        DottedInjective(n, dry.shipped[i]);
      }
    }
  }

  /** The definitions of one send reach an open server in step: each is new there and is registered. */
  lemma ServeShippedDefinitions(sent: set<string>, s: Conn, builtin: set<string>, visits: seq<Visit>, resources: Resources)
    requires forall n :: n in sent ==> InternalName(n)
    requires s.status.Open? && s.registry.Keys == DottedSet(sent) && s.initiated <= builtin
    requires InternalCaptures(visits) && Foreign(builtin, visits)
    ensures var dry := DryPass(sent, visits, resources);
            var s1 := Serve(s, builtin, Delivered(DefinitionWrites(dry.definitions)));
            && s1.status.Open?
            && s1.registry.Keys == DottedSet(dry.sent)
            && s1.initiated == s.initiated && s1.out == s.out && s1.executed == s.executed
  {
    var dry := DryPass(sent, visits, resources);
    var names := DottedAll(dry.shipped);
    DeliveredDefinitions(dry.definitions);
    DryPassNames(sent, visits, resources);
    ShippedForeign(sent, builtin, visits, resources);
    assert forall i :: 0 <= i < |names| ==> names[i] !in s.initiated;
    ServeDefinitions(s, builtin, dry.definitions, names);
    DottedSetUnion(sent, Elems(dry.shipped));
  }

  lemma DottedSetUnion(a: set<string>, b: set<string>)
    ensures DottedSet(a + b) == DottedSet(a) + DottedSet(b)
  {
  }

  /** The binary names a dry pass ships are not built into the server. */
  lemma ShippedForeign(sent: set<string>, builtin: set<string>, visits: seq<Visit>, resources: Resources)
    requires Foreign(builtin, visits)
    ensures var names := DottedAll(DryPass(sent, visits, resources).shipped);
            forall i :: 0 <= i < |names| ==> names[i] !in builtin
  {
    var shipped := DryPass(sent, visits, resources).shipped;
    DryPassShipsCaptured(sent, visits, resources);
    forall i | 0 <= i < |shipped|
      ensures DottedAll(shipped)[i] !in builtin
    {
      assert shipped[i] in shipped;
      assert Captured(visits, shipped[i]);
    }
  }

  /** After a completed send's definitions, every class of a self-contained payload resolves. */
  lemma ServeShippedPayload(sent: set<string>, s1: Conn, builtin: set<string>, visits: seq<Visit>, payload: Payload)
    requires s1.status.Open? && s1.registry.Keys == DottedSet(sent)
    requires SelfContained(builtin, visits, payload)
    requires forall j :: 0 <= j < |visits| && IsLambda(visits[j]) ==> visits[j].capturingClass in sent
    ensures Serve(s1, builtin, Delivered([Write(Send(payload)), Flush])) == Dispatch(s1, Send(payload))
  {
    DeliveredPayload(payload);
    forall n | n in payload.classes
      ensures Resolve(s1.registry, builtin, n).Some?
    {
      if n !in builtin {
        var j :| 0 <= j < |visits| && IsLambda(visits[j]) && Dotted(visits[j].capturingClass) == n;
        assert visits[j].capturingClass in sent;
      }
    }
    var stream := [Received(Send(payload))];
    assert stream[1..] == [];
    assert Serve(s1, builtin, stream) == Step(s1, builtin, stream[0]);
  }

  /** A failed send reaches the server as its definitions only, which keep it open and in step. */
  lemma FailedSendDefinesOnly(c: Client, s: Conn, builtin: set<string>, visits: seq<Visit>, resources: Resources, payload: Payload)
    requires InStep(c, s, builtin) && s.status.Open? && InternalCaptures(visits) && Foreign(builtin, visits)
    requires Ship(c, visits, resources, payload).1.Some?
    ensures var c' := Ship(c, visits, resources, payload).0;
            var s' := Serve(s, builtin, Delivered(c'.wire[|c.wire|..]));
            s'.status.Open? && s'.registry.Keys == DottedSet(c'.sent)
  {
    var c' := Ship(c, visits, resources, payload).0;
    ShipIsSendObject(c, visits, resources, payload);
    SendObjectTrace(c.sent, visits, resources, payload);
    assert c'.wire[|c.wire|..] == DefinitionWrites(DryPass(c.sent, visits, resources).definitions);
    ServeShippedDefinitions(c.sent, s, builtin, visits, resources);
  }

  /** One send keeps an open server in step with the client. */
  lemma ShipInStepOpen(c: Client, s: Conn, builtin: set<string>, visits: seq<Visit>, resources: Resources, payload: Payload)
    requires InStep(c, s, builtin) && s.status.Open?
    requires InternalCaptures(visits) && SelfContained(builtin, visits, payload)
    ensures var c' := Ship(c, visits, resources, payload).0;
            var s' := Serve(s, builtin, Delivered(c'.wire[|c.wire|..]));
            s'.status.Open? ==> s'.registry.Keys == DottedSet(c'.sent)
    ensures var c' := Ship(c, visits, resources, payload).0;
            var s' := Serve(s, builtin, Delivered(c'.wire[|c.wire|..]));
            || s'.status.Open? || s'.status.ClosedClean?
            || (s'.status.ClosedFailed? && (s'.status.failure.CallRaised? || s'.status.failure.RunRaised?))
  {
    if Ship(c, visits, resources, payload).1.None? {
      ServeCompletedSend(c, s, builtin, visits, resources, payload);
      var s1 := Serve(s, builtin, Delivered(DefinitionWrites(DryPass(c.sent, visits, resources).definitions)));
      PayloadKeepsRegistry(s1, payload);
    } else {
      FailedSendDefinesOnly(c, s, builtin, visits, resources, payload);
    }
  }

  /** One send keeps client and server in step. */
  lemma ShipInStep(c: Client, s: Conn, builtin: set<string>, visits: seq<Visit>, resources: Resources, payload: Payload)
    requires InStep(c, s, builtin) && InternalCaptures(visits) && SelfContained(builtin, visits, payload)
    ensures var c' := Ship(c, visits, resources, payload).0;
            && c.wire <= c'.wire
            && InStep(c', Serve(s, builtin, Delivered(c'.wire[|c.wire|..])), builtin)
  {
    ShipKeepsShippedOnce(c, visits, resources, payload);
    if s.status.Open? {
      ShipInStepOpen(c, s, builtin, visits, resources, payload);
    }
  }

  /** `send(Callable)` and `send(Runnable)` write on the wire exactly what `sendObject` writes. */
  lemma PerformShips(c: Client, resources: Resources, request: Request)
    ensures var c' := Perform(c, resources, request).0;
            var shipped := Ship(c, request.visits, resources, request.payload).0;
            c'.sent == shipped.sent && c'.wire == shipped.wire
  {
  }

  /**
    Code before payload makes resolution succeed: however a client's calls
    turn out, when every payload needs only built-in classes and the capturing
    classes of its own lambdas, the server reading that client's connection
    never misses a class, never sees a class defined twice, and ends either
    cleanly or because a closure it invoked threw.
   */
  lemma {:induction false} ProtocolResolves(inbox: seq<Value>, builtin: set<string>, resources: Resources, requests: seq<Request>)
    requires forall k :: 0 <= k < |requests| ==>
               InternalCaptures(requests[k].visits) && SelfContained(builtin, requests[k].visits, requests[k].payload)
    ensures var c := Session(Connect(inbox), resources, requests).0;
            InStep(c, Serve(Fresh(), builtin, Delivered(c.wire)), builtin)
    ensures var c := Session(Connect(inbox), resources, requests).0;
            var r := Connection(builtin, Delivered(c.wire));
            r.status == ClosedClean
            || (r.status.ClosedFailed? && (r.status.failure.CallRaised? || r.status.failure.RunRaised?))
  {
    if requests == [] {
      assert DottedSet({}) == {};
      assert Delivered([]) == [];
    } else {
      var prefix := requests[..|requests| - 1];
      var last := requests[|requests| - 1];
      forall k | 0 <= k < |prefix|
        ensures InternalCaptures(prefix[k].visits) && SelfContained(builtin, prefix[k].visits, prefix[k].payload)
      {
        assert prefix[k] == requests[k];
      }
      ProtocolResolves(inbox, builtin, resources, prefix);
      var before := Session(Connect(inbox), resources, prefix).0;
      var s := Serve(Fresh(), builtin, Delivered(before.wire));
      PerformShips(before, resources, last);
      ShipInStep(before, s, builtin, last.visits, resources, last.payload);
      var after := Session(Connect(inbox), resources, requests).0;
      assert after.wire == before.wire + after.wire[|before.wire|..];
      DeliveredAppend(before.wire, after.wire[|before.wire|..]);
      ServeAppend(Fresh(), builtin, Delivered(before.wire), Delivered(after.wire[|before.wire|..]));
    }
  }

  /** The values of the replies a server wrote, in order. */
  function ReplyValues(out: seq<ReplyEvent>): seq<Value>
  {
    if out == [] then []
    else (if out[0].Reply? then [out[0].value] else []) + ReplyValues(out[1..])
  }

  /**
    A completed send reaches an open server in step as its definitions, all
    registered without a reply, followed by one dispatch of the payload.
   */
  lemma ServeCompletedSend(c: Client, s: Conn, builtin: set<string>, visits: seq<Visit>, resources: Resources, payload: Payload)
    requires InStep(c, s, builtin) && s.status.Open?
    requires InternalCaptures(visits) && SelfContained(builtin, visits, payload)
    requires forall j :: 0 <= j < |visits| ==> Acceptable(c.sent, visits[j], resources)
    ensures var c' := Ship(c, visits, resources, payload).0;
            var s1 := Serve(s, builtin, Delivered(DefinitionWrites(DryPass(c.sent, visits, resources).definitions)));
            && s1.status.Open? && s1.out == s.out && s1.executed == s.executed
            && s1.registry.Keys == DottedSet(c'.sent)
            && Serve(s, builtin, Delivered(c'.wire[|c.wire|..])) == Dispatch(s1, Send(payload))
  {
    var shipment := SendObject(c.sent, visits, resources, payload);
    SendObjectCompletes(c.sent, visits, resources, payload);
    var c' := Ship(c, visits, resources, payload).0;
    var writes := DefinitionWrites(DryPass(c.sent, visits, resources).definitions);
    var tail := [Write(Send(payload)), Flush];
    assert c'.wire[|c.wire|..] == writes + tail;
    DeliveredAppend(writes, tail);
    ServeAppend(s, builtin, Delivered(writes), Delivered(tail));
    ServeShippedDefinitions(c.sent, s, builtin, visits, resources);
    ServeShippedPayload(c'.sent, Serve(s, builtin, Delivered(writes)), builtin, visits, payload);
  }

  /**
    A round trip: a client in step with an open server sends a Callable whose
    call() returns v; the server, reading what was sent, stays open and writes
    the single reply v, flushed; reading the server's new output, the client's
    `send(Callable)` returns v.
   */
  lemma CallRoundTrip(c: Client, s: Conn, builtin: set<string>, visits: seq<Visit>, resources: Resources, payload: Payload, v: Value)
    requires InStep(c, s, builtin) && s.status.Open?
    requires InternalCaptures(visits) && SelfContained(builtin, visits, payload)
    requires forall j :: 0 <= j < |visits| ==> Acceptable(c.sent, visits[j], resources)
    requires payload.call == Some(Returns(v))
    ensures var c' := Ship(c, visits, resources, payload).0;
            var s' := Serve(s, builtin, Delivered(c'.wire[|c.wire|..]));
            && s'.status.Open?
            && s'.out == s.out + [Reply(v), ReplyFlush]
            && SendCallable(c.(inbox := ReplyValues(s'.out[|s.out|..])), visits, resources, payload).1 == Success(v)
  {
    ServeCompletedSend(c, s, builtin, visits, resources, payload);
    var c' := Ship(c, visits, resources, payload).0;
    var s1 := Serve(s, builtin, Delivered(DefinitionWrites(DryPass(c.sent, visits, resources).definitions)));
    CallableReplied(s1, payload, v);
    var s' := Serve(s, builtin, Delivered(c'.wire[|c.wire|..]));
    assert s'.out[|s.out|..] == [Reply(v), ReplyFlush];
    ReplyValuesOfReply(v);
    CallReadsReply(c, visits, resources, payload, v);
  }

  lemma ReplyValuesOfReply(v: Value)
    ensures ReplyValues([Reply(v), ReplyFlush]) == [v]
  {
    assert [Reply(v), ReplyFlush][1..] == [ReplyFlush];
    assert [ReplyFlush][1..] == [];
  }

  /** Once the ship completes, `send(Callable)` returns the first reply waiting. */
  lemma CallReadsReply(c: Client, visits: seq<Visit>, resources: Resources, payload: Payload, v: Value)
    requires forall j :: 0 <= j < |visits| ==> Acceptable(c.sent, visits[j], resources)
    ensures SendCallable(c.(inbox := [v]), visits, resources, payload).1 == Success(v)
  {
  }

  /**
    The Runnable half of a round trip: the server runs the closure once, stays
    open and writes nothing; `send(Runnable)` completes and reads nothing.
   */
  lemma RunRoundTrip(c: Client, s: Conn, builtin: set<string>, visits: seq<Visit>, resources: Resources, payload: Payload)
    requires InStep(c, s, builtin) && s.status.Open?
    requires InternalCaptures(visits) && SelfContained(builtin, visits, payload)
    requires forall j :: 0 <= j < |visits| ==> Acceptable(c.sent, visits[j], resources)
    requires payload.call.None? && payload.run == Some(Completes)
    ensures var c' := Ship(c, visits, resources, payload).0;
            var s' := Serve(s, builtin, Delivered(c'.wire[|c.wire|..]));
            && s'.status.Open?
            && s'.out == s.out
            && s'.executed == s.executed + [Ran(payload.id)]
            && SendRunnable(c, visits, resources, payload) == (c', None)
  {
    ServeCompletedSend(c, s, builtin, visits, resources, payload);
    var s1 := Serve(s, builtin, Delivered(DefinitionWrites(DryPass(c.sent, visits, resources).definitions)));
    RunnableRan(s1, payload);
  }

  /**
    The overloads are chosen by static type on the client but the server
    dispatches on the object: a closure that is both Callable and Runnable,
    sent through `send(Runnable)`, is called, and its reply is written but
    never read by that send.
   */
  lemma RunnableOverloadLeavesReply(c: Client, s: Conn, builtin: set<string>, visits: seq<Visit>, resources: Resources, payload: Payload, v: Value)
    requires InStep(c, s, builtin) && s.status.Open?
    requires InternalCaptures(visits) && SelfContained(builtin, visits, payload)
    requires forall j :: 0 <= j < |visits| ==> Acceptable(c.sent, visits[j], resources)
    requires payload.call == Some(Returns(v)) && payload.run.Some?
    ensures var (c', error) := SendRunnable(c, visits, resources, payload);
            var s' := Serve(s, builtin, Delivered(c'.wire[|c.wire|..]));
            && error.None? && c'.inbox == c.inbox
            && s'.out == s.out + [Reply(v), ReplyFlush]
            && s'.executed == s.executed + [Called(payload.id, v)]
  {
    SendRunnableIsShip(c, visits, resources, payload);
    ServeCompletedSend(c, s, builtin, visits, resources, payload);
    var s1 := Serve(s, builtin, Delivered(DefinitionWrites(DryPass(c.sent, visits, resources).definitions)));
    CallableReplied(s1, payload, v);
  }

  /** `send(Runnable)` is exactly the ship of its object. */
  lemma SendRunnableIsShip(c: Client, visits: seq<Visit>, resources: Resources, payload: Payload)
    ensures SendRunnable(c, visits, resources, payload) == Ship(c, visits, resources, payload)
  {
  }

  /** The capturing classes of the lambdas a traversal visits. */
  function Captures(visits: seq<Visit>): set<string>
  {
    set j | 0 <= j < |visits| && IsLambda(visits[j]) :: visits[j].capturingClass
  }

  /**
    A completed send adds to the sent-set exactly the capturing classes of the
    lambdas it visited: none is missed and nothing else is added.
   */
  lemma CompletedSendAddsCaptures(sent: set<string>, visits: seq<Visit>, resources: Resources, payload: Payload)
    requires SendObject(sent, visits, resources, payload).error.None?
    ensures SendObject(sent, visits, resources, payload).sent == sent + Captures(visits)
  {
    var r := SendObject(sent, visits, resources, payload);
    SendObjectCompletes(sent, visits, resources, payload);
    forall n | n in Captures(visits)
      ensures n in r.sent
    {
      var j :| 0 <= j < |visits| && IsLambda(visits[j]) && visits[j].capturingClass == n;
    }
    forall n | n in r.sent && n !in sent
      ensures n in Captures(visits)
    {
      CapturedIsCapture(visits, n, r.shipped);
    }
  }

  lemma CapturedIsCapture(visits: seq<Visit>, n: string, shipped: seq<string>)
    requires n in Elems(shipped)
    requires forall i :: 0 <= i < |shipped| ==> Captured(visits, shipped[i])
    ensures n in Captures(visits)
  {
  }

  /** The capturing class of the repository's test lambdas, in internal form. */
  const TestClass: string := "org/" + "jboss/" + "beach/" + "lambchops/" + "client/" + "SimpleTestCase"

  /** Classes the server loads itself: the lambda machinery and the reply type. */
  const TestBuiltins: set<string> := {"java.lang.invoke.SerializedLambda", "java.lang.String"}

  /** The test class file, read in two chunks. */
  function TestResources(): Resources
  {
    map[ResourcePath(TestClass) := [Chunk([0xCA, 0xFE]), Chunk([0xBA, 0xBE]), EndOfStream]]
  }

  /** Writing a test lambda visits its SerializedLambda, then a String from the JDK. */
  function TestVisits(): seq<Visit>
  {
    [Visit(SerializedLambdaClass, TestClass), Visit(Named("java.lang.String", false), "")]
  }

  function TestPayload(id: nat, call: Option<Invocation>, run: Option<Effect>): Payload
  {
    Payload(id, ["java.lang.invoke.SerializedLambda", Dotted(TestClass)], call, run)
  }

  lemma TestClassInternal()
    ensures InternalName(TestClass)
  {
  }

  lemma TestClassLoadable()
    ensures Loadable(TestResources(), TestClass)
  {
  }

  lemma TestCaptures()
    ensures InternalCaptures(TestVisits())
    ensures Captures(TestVisits()) == {TestClass}
  {
    TestClassInternal();
    assert TestVisits()[0].capturingClass == TestClass;
  }

  lemma TestSetup()
    ensures InStep(Connect([]), Fresh(), TestBuiltins)
    ensures InternalCaptures(TestVisits())
    ensures forall j :: 0 <= j < |TestVisits()| ==> Acceptable({}, TestVisits()[j], TestResources())
    ensures forall call, run, id :: SelfContained(TestBuiltins, TestVisits(), TestPayload(id, call, run))
  {
    assert DottedSet({}) == {};
    TestCaptures();
    TestClassLoadable();
    assert TestVisits()[0].capturingClass == TestClass;
  }

  /**
    The first call on a new connection: when it completes and its payload is
    self-contained, the server reading the connection replies with the call's
    value, flushed, and closes cleanly at end of stream; `send(Callable)`
    returns that value.
   */
  lemma FirstCallRoundTrip(builtin: set<string>, visits: seq<Visit>, resources: Resources, payload: Payload, v: Value)
    requires InternalCaptures(visits) && SelfContained(builtin, visits, payload)
    requires forall j :: 0 <= j < |visits| ==> Acceptable({}, visits[j], resources)
    requires payload.call == Some(Returns(v))
    ensures var c := Ship(Connect([]), visits, resources, payload).0;
            var s := Connection(builtin, Delivered(c.wire));
            && s.status == ClosedClean
            && s.out == [Reply(v), ReplyFlush]
            && SendCallable(Connect(ReplyValues(s.out)), visits, resources, payload).1 == Success(v)
  {
    assert DottedSet({}) == {};
    CallRoundTrip(Connect([]), Fresh(), builtin, visits, resources, payload, v);
    var c := Ship(Connect([]), visits, resources, payload).0;
    assert c.wire[|Connect([]).wire|..] == c.wire;
  }

  /** The first Runnable on a new connection is run once, with no reply, and the connection closes cleanly. */
  lemma FirstRunRoundTrip(builtin: set<string>, visits: seq<Visit>, resources: Resources, payload: Payload)
    requires InternalCaptures(visits) && SelfContained(builtin, visits, payload)
    requires forall j :: 0 <= j < |visits| ==> Acceptable({}, visits[j], resources)
    requires payload.call.None? && payload.run == Some(Completes)
    ensures var c := Ship(Connect([]), visits, resources, payload).0;
            var s := Connection(builtin, Delivered(c.wire));
            && s.status == ClosedClean
            && s.executed == [Ran(payload.id)]
            && s.out == []
            && SendRunnable(Connect([]), visits, resources, payload).1.None?
  {
    assert DottedSet({}) == {};
    RunRoundTrip(Connect([]), Fresh(), builtin, visits, resources, payload);
    var c := Ship(Connect([]), visits, resources, payload).0;
    assert c.wire[|Connect([]).wire|..] == c.wire;
  }

  /**
    The callable test: a lambda returning "The result" sent on a new
    connection; the server reading that connection replies "The result" and
    closes cleanly at end of stream; and `send(Callable)` returns that reply.
   */
  lemma TestCallable()
    ensures var payload := TestPayload(1, Some(Returns(Value("The result"))), None);
            var c := Ship(Connect([]), TestVisits(), TestResources(), payload).0;
            var s := Connection(TestBuiltins, Delivered(c.wire));
            && s.status == ClosedClean
            && s.out == [Reply(Value("The result")), ReplyFlush]
            && SendCallable(Connect(ReplyValues(s.out)), TestVisits(), TestResources(), payload).1 == Success(Value("The result"))
  {
    TestSetup();
    FirstCallRoundTrip(TestBuiltins, TestVisits(), TestResources(), TestPayload(1, Some(Returns(Value("The result"))), None), Value("The result"));
  }

  /** A send that completes adds the visited lambdas' capturing classes to the connection's sent-set. */
  lemma ShipAddsCaptures(c: Client, visits: seq<Visit>, resources: Resources, payload: Payload)
    requires forall j :: 0 <= j < |visits| ==> Acceptable(c.sent, visits[j], resources)
    ensures Ship(c, visits, resources, payload).0.sent == c.sent + Captures(visits)
  {
    var r := SendObject(c.sent, visits, resources, payload);
    ShipIsSendObject(c, visits, resources, payload);
    assert r.error.None?;
    CompletedSendAddsCaptures(c.sent, visits, resources, payload);
  }

  /** A send from a new client that completes leaves exactly the visited lambdas' capturing classes sent. */
  lemma FirstSendAddsCaptures(inbox: seq<Value>, visits: seq<Visit>, resources: Resources, payload: Payload)
    requires forall j :: 0 <= j < |visits| ==> Acceptable({}, visits[j], resources)
    ensures Ship(Connect(inbox), visits, resources, payload).0.sent == Captures(visits)
  {
    ShipAddsCaptures(Connect(inbox), visits, resources, payload);
  }

  /** Either test lambda's send on a new connection ships exactly the test class. */
  lemma TestShipsTestClass(payload: Payload)
    ensures Ship(Connect([]), TestVisits(), TestResources(), payload).0.sent == {TestClass}
  {
    TestSetup();
    TestCaptures();
    FirstSendAddsCaptures([], TestVisits(), TestResources(), payload);
  }

  /**
    The runnable test: the server runs the lambda once, writes no reply, and
    closes cleanly; `send(Runnable)` completes.
   */
  lemma TestRunnable()
    ensures var payload := TestPayload(2, None, Some(Completes));
            var c := Ship(Connect([]), TestVisits(), TestResources(), payload).0;
            var s := Connection(TestBuiltins, Delivered(c.wire));
            && s.status == ClosedClean
            && s.executed == [Ran(2)]
            && s.out == []
            && SendRunnable(Connect([]), TestVisits(), TestResources(), payload).1.None?
  {
    TestSetup();
    FirstRunRoundTrip(TestBuiltins, TestVisits(), TestResources(), TestPayload(2, None, Some(Completes)));
  }
}
