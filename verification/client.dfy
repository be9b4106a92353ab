/**
  One client connection: the per-connection sent-set, the output channel the
  shipper writes on, and the input channel replies are read from.
  `send(Callable)` reads exactly one reply after shipping; `send(Runnable)`
  reads nothing.
 */
module ClientChannel {
  import opened Wrappers
  import opened Wire
  import opened Shipper

  /**
    The connection state: capturing classes already sent (internal form),
    every event on the real output channel, and the replies not yet read.
   */
  datatype Client = Client(sent: set<string>, wire: seq<WireEvent>, inbox: seq<Value>)

  /** A new connection: nothing sent, nothing written; `inbox` is what the peer will reply. */
  function Connect(inbox: seq<Value>): (r: Client)
    ensures r.sent == {} && r.wire == [] && r.inbox == inbox
  {
    Client({}, [], inbox)
  }

  datatype ClientError =
    | ShipFailed(cause: SendError)   // sendObject threw
    | NoReply                        // the input ended before a reply (EOFException)

  /**
    `sendObject` applied to the connection state: the sent-set grows only by
    capturing classes of visited lambdas, the channel only by new writes, and
    the payload is written exactly when every visited object was acceptable.
   */
  function Ship(c: Client, visits: seq<Visit>, resources: Resources, payload: Payload): (r: (Client, Option<SendError>))
    ensures r.0.inbox == c.inbox && c.wire <= r.0.wire
    ensures c.sent <= r.0.sent && forall n :: n in r.0.sent && n !in c.sent ==> Captured(visits, n)
    ensures r.1.None? <==> Write(Send(payload)) in r.0.wire[|c.wire|..]
    ensures r.1.None? <==> forall j :: 0 <= j < |visits| ==> Acceptable(c.sent, visits[j], resources)
  {
    var s := SendObject(c.sent, visits, resources, payload);
    SendObjectCompletes(c.sent, visits, resources, payload);
    var wire := c.wire + s.trace;
    assert wire[|c.wire|..] == s.trace;
    assert s.error.Some? ==> forall i :: 0 <= i < |s.trace| ==> s.trace[i].message.Define?;
    (c.(sent := s.sent, wire := wire), s.error)
  }

  /** Shipping records what `sendObject` returns and appends what it writes. */
  lemma ShipIsSendObject(c: Client, visits: seq<Visit>, resources: Resources, payload: Payload)
    ensures var s := SendObject(c.sent, visits, resources, payload);
            Ship(c, visits, resources, payload) == (c.(sent := s.sent, wire := c.wire + s.trace), s.error)
  {
  }

  /**
    `send(Callable)`: ship the closure, then read exactly one object and
    return it. Nothing is read when shipping fails.
   */
  function SendCallable(c: Client, visits: seq<Visit>, resources: Resources, payload: Payload): (r: (Client, Result<Value, ClientError>))
    ensures c.sent <= r.0.sent && c.wire <= r.0.wire
    ensures r.1.Success? <==> Ship(c, visits, resources, payload).1.None? && c.inbox != []
    ensures r.1.Success? ==> r.1.value == c.inbox[0] && r.0.inbox == c.inbox[1..]
    ensures r.1.Failure? ==> r.0.inbox == c.inbox
    ensures r.1.Failure? && r.1.error.ShipFailed? ==> Write(Send(payload)) !in r.0.wire[|c.wire|..]
  {
    var (c', error) := Ship(c, visits, resources, payload);
    var s := SendObject(c.sent, visits, resources, payload);
    assert c'.wire[|c.wire|..] == s.trace;
    if error.Some? then
      (c', Failure(ShipFailed(error.value)))
    else if c'.inbox == [] then
      (c', Failure(NoReply))
    else
      (c'.(inbox := c'.inbox[1..]), Success(c'.inbox[0]))
  }

  /** `send(Runnable)`: ship the closure and read nothing back. */
  function SendRunnable(c: Client, visits: seq<Visit>, resources: Resources, payload: Payload): (r: (Client, Option<SendError>))
    ensures c.sent <= r.0.sent && c.wire <= r.0.wire
    ensures r.0.inbox == c.inbox
    ensures r.1.None? <==> Write(Send(payload)) in r.0.wire[|c.wire|..]
  {
    var (c', error) := Ship(c, visits, resources, payload);
    var s := SendObject(c.sent, visits, resources, payload);
    assert c'.wire[|c.wire|..] == s.trace;
    assert s.error.Some? ==> forall i :: 0 <= i < |s.trace| ==> s.trace[i].message.Define?;
    (c', error)
  }

  /** A call on the client, by the overload the caller's static type selects. */
  datatype Request = Call(visits: seq<Visit>, payload: Payload) | Fire(visits: seq<Visit>, payload: Payload)

  /** What a call returned to its caller. */
  datatype Answer = Replied(value: Value) | Fired | Failed(error: ClientError)

  function Perform(c: Client, resources: Resources, request: Request): (Client, Answer)
  {
    match request
    case Call(visits, payload) =>
      var (c', r) := SendCallable(c, visits, resources, payload);
      (c', if r.Success? then Replied(r.value) else Failed(r.error))
    case Fire(visits, payload) =>
      var (c', e) := SendRunnable(c, visits, resources, payload);
      (c', if e.None? then Fired else Failed(ShipFailed(e.value)))
  }

  /** A sequence of calls on one connection; a failed call does not end it. */
  function Session(c: Client, resources: Resources, requests: seq<Request>): (Client, seq<Answer>)
  {
    if requests == [] then (c, [])
    else
      var (before, answers) := Session(c, resources, requests[..|requests| - 1]);
      var (after, answer) := Perform(before, resources, requests[|requests| - 1]);
      (after, answers + [answer])
  }

  /** The values handed back to callers, in order. */
  function Replies(answers: seq<Answer>): seq<Value>
  {
    if answers == [] then []
    else Replies(answers[..|answers| - 1])
         + (if answers[|answers| - 1].Replied? then [answers[|answers| - 1].value] else [])
  }

  /**
    Replies are consumed in order, one per successful `send(Callable)`: the
    values the callers got, followed by what is still unread, is exactly what
    the peer replied.
   */
  lemma {:induction false} SessionConsumesReplies(c: Client, resources: Resources, requests: seq<Request>)
    ensures c.inbox == Replies(Session(c, resources, requests).1) + Session(c, resources, requests).0.inbox
    ensures |Session(c, resources, requests).1| == |requests|
  {
    if requests != [] {
      var prefix := requests[..|requests| - 1];
      var before := Session(c, resources, prefix);
      SessionConsumesReplies(c, resources, prefix);
      var step := Perform(before.0, resources, requests[|requests| - 1]);
      SessionSnoc(c, resources, requests);
      PerformConsumes(before.0, resources, requests[|requests| - 1]);
      ConsumesSnoc(c.inbox, before.1, before.0.inbox, step.1, step.0.inbox);
    }
  }

  /** One more answer: a reply taken off the front of what was unread, or nothing taken. */
  lemma ConsumesSnoc(inbox: seq<Value>, answers: seq<Answer>, unread: seq<Value>, answer: Answer, left: seq<Value>)
    requires inbox == Replies(answers) + unread
    requires answer.Replied? ==> unread == [answer.value] + left
    requires !answer.Replied? ==> unread == left
    ensures inbox == Replies(answers + [answer]) + left
  {
  }

  /** A session is its prefix followed by one more call. */
  lemma SessionSnoc(c: Client, resources: Resources, requests: seq<Request>)
    requires requests != []
    ensures var before := Session(c, resources, requests[..|requests| - 1]);
            var step := Perform(before.0, resources, requests[|requests| - 1]);
            Session(c, resources, requests) == (step.0, before.1 + [step.1])
  {
  }

  /** One call consumes the reply it returns, and only a `send(Callable)` consumes one. */
  lemma PerformConsumes(c: Client, resources: Resources, request: Request)
    ensures var (after, answer) := Perform(c, resources, request);
            && (answer.Replied? ==> request.Call? && c.inbox == [answer.value] + after.inbox)
            && (!answer.Replied? ==> c.inbox == after.inbox)
  {
  }

  /** Every capturing class a traversal could ship is in internal form. */
  predicate InternalCaptures(visits: seq<Visit>)
  {
    forall j :: 0 <= j < |visits| && IsLambda(visits[j]) ==> InternalName(visits[j].capturingClass)
  }

  function DottedSet(names: set<string>): set<string>
  {
    set n | n in names :: Dotted(n)
  }

  /**
    The at-most-once invariant of a connection: the sent-set holds internal
    names, and the class definitions on the wire carry each sent name's binary
    form exactly once.
   */
  predicate ShippedOnce(c: Client)
  {
    && (forall n :: n in c.sent ==> InternalName(n))
    && Distinct(DefinitionNames(c.wire))
    && Elems(DefinitionNames(c.wire)) == DottedSet(c.sent)
  }

  lemma DistinctAppend(a: seq<string>, b: seq<string>)
    requires Distinct(a) && Distinct(b)
    requires forall x :: x in b ==> x !in a
    ensures Distinct(a + b)
  {
    forall i, j | 0 <= i < j < |a + b|
      ensures (a + b)[i] != (a + b)[j]
    {
      if j < |a| {
        assert (a + b)[i] == a[i] && (a + b)[j] == a[j];
      } else if i >= |a| {
        assert (a + b)[i] == b[i - |a|] && (a + b)[j] == b[j - |a|];
      } else {
        assert (a + b)[i] == a[i] && (a + b)[j] == b[j - |a|];
        assert b[j - |a|] in b;
      }
    }
  }

  /** Distinct internal names have distinct binary names. */
  lemma DottedAllDistinct(names: seq<string>)
    requires Distinct(names) && forall n :: n in names ==> InternalName(n)
    ensures Distinct(DottedAll(names))
  {
    var dotted := DottedAll(names);
    forall i, j | 0 <= i < j < |dotted|
      ensures dotted[i] != dotted[j]
    {
      if dotted[i] == dotted[j] {
        assert names[i] in names && names[j] in names;
        DottedInjective(names[i], names[j]);
      }
    }
  }

  lemma DottedAllElems(names: seq<string>)
    ensures Elems(DottedAll(names)) == DottedSet(Elems(names))
  {
  }

  /** Internal names never sent before have binary names never sent before. */
  lemma DottedAllFresh(sent: set<string>, names: seq<string>)
    requires forall n :: n in sent ==> InternalName(n)
    requires forall n :: n in names ==> InternalName(n) && n !in sent
    ensures forall x :: x in DottedAll(names) ==> x !in DottedSet(sent)
  {
    var dotted := DottedAll(names);
    forall x | x in dotted
      ensures x !in DottedSet(sent)
    {
      var i :| 0 <= i < |dotted| && dotted[i] == x;
      if x in DottedSet(sent) {
        var n :| n in sent && Dotted(n) == x;
        assert names[i] in names;
        DottedInjective(n, names[i]);
      }
    }
  }

  /**
    Appending the binary names of new, distinct, internal names to a record
    of distinct definition names keeps the record distinct and in step with
    the grown sent-set.
   */
  lemma ExtendShippedOnce(sent: set<string>, names: seq<string>, shipped: seq<string>)
    requires forall n :: n in sent ==> InternalName(n)
    requires Distinct(names) && Elems(names) == DottedSet(sent)
    requires Distinct(shipped)
    requires forall n :: n in shipped ==> InternalName(n) && n !in sent
    ensures Distinct(names + DottedAll(shipped))
    ensures Elems(names + DottedAll(shipped)) == DottedSet(sent + Elems(shipped))
  {
    var added := DottedAll(shipped);
    DottedAllDistinct(shipped);
    DottedAllElems(shipped);
    DottedAllFresh(sent, shipped);
    DistinctAppend(names, added);
    assert Elems(names + added) == Elems(names) + Elems(added);
    assert DottedSet(sent + Elems(shipped)) == DottedSet(sent) + DottedSet(Elems(shipped));
  }

  /** One send keeps the at-most-once invariant. */
  lemma ShipKeepsShippedOnce(c: Client, visits: seq<Visit>, resources: Resources, payload: Payload)
    requires ShippedOnce(c) && InternalCaptures(visits)
    ensures ShippedOnce(Ship(c, visits, resources, payload).0)
  {
    var s := SendObject(c.sent, visits, resources, payload);
    DefinitionNamesAppend(c.wire, s.trace);
    forall n | n in s.shipped
      ensures InternalName(n) && n !in c.sent
    {
      var i :| 0 <= i < |s.shipped| && s.shipped[i] == n;
      assert Captured(visits, n);
    }
    ExtendShippedOnce(c.sent, DefinitionNames(c.wire), s.shipped);
  }

  lemma {:induction false} SessionShipsOnce(c: Client, resources: Resources, requests: seq<Request>)
    requires ShippedOnce(c)
    requires forall k :: 0 <= k < |requests| ==> InternalCaptures(requests[k].visits)
    ensures ShippedOnce(Session(c, resources, requests).0)
    ensures c.sent <= Session(c, resources, requests).0.sent
    ensures c.wire <= Session(c, resources, requests).0.wire
  {
    if requests != [] {
      var prefix := requests[..|requests| - 1];
      var last := requests[|requests| - 1];
      SessionShipsOnce(c, resources, prefix);
      var before := Session(c, resources, prefix).0;
      ShipKeepsShippedOnce(before, last.visits, resources, last.payload);
    }
  }

  /**
    At most once per connection: over any sequence of sends on a new client,
    no class definition name is written twice, and the names written are
    exactly the binary forms of the sent-set.
   */
  lemma AtMostOnce(inbox: seq<Value>, resources: Resources, requests: seq<Request>)
    requires forall k :: 0 <= k < |requests| ==> InternalCaptures(requests[k].visits)
    ensures var c := Session(Connect(inbox), resources, requests).0;
            Distinct(DefinitionNames(c.wire)) && Elems(DefinitionNames(c.wire)) == DottedSet(c.sent)
  {
    assert DottedSet({}) == {};
    SessionShipsOnce(Connect(inbox), resources, requests);
  }
}
