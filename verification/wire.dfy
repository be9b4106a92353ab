/** An optional value and a success-or-error outcome, shared by the client and server models. */
module Wrappers {

  datatype Option<+T> = None | Some(value: T)

  datatype Result<+T, +E> = Success(value: T) | Failure(error: E)
}

/**
  The objects that travel between the client and the server: class definitions
  shipped ahead of a closure, the closures themselves, and the replies.
  Java serialization is abstracted away: a message is one `writeObject`.
 */
module Wire {
  import opened Wrappers

  newtype byte = b: int | 0 <= b < 256

  /** The shipped form of one class: its binary name and its class-file bytes. */
  datatype ClassDefinition = ClassDefinition(className: string, classBytes: seq<byte>)

  /** An object returned by a Callable and written back as a reply. */
  datatype Value = Value(text: string)

  /**
    An exception a closure throws: its class name, and whether it is an
    `EOFException` (or a subclass), which the server treats as end of stream.
   */
  datatype Thrown = Thrown(className: string, endOfStream: bool)

  /** What `call()` does when the server invokes it. */
  datatype Invocation = Returns(result: Value) | Throws(cause: Thrown)

  /** What `run()` does when the server invokes it. */
  datatype Effect = Completes | Raises(cause: Thrown)

  /**
    A payload object. `classes` are the binary names of the classes whose
    descriptors the receiver must resolve to read it back; `call` is present
    when the object implements Callable, `run` when it implements Runnable
    (an object may implement both, or neither).
   */
  datatype Payload = Payload(id: nat, classes: seq<string>, call: Option<Invocation>, run: Option<Effect>)

  /** One object written on the connection. */
  datatype Message = Define(definition: ClassDefinition) | Send(payload: Payload)

  /** What the client does to its real output channel. */
  datatype WireEvent = Write(message: Message) | Flush

  predicate Distinct<T(==)>(s: seq<T>)
  {
    forall i, j :: 0 <= i < j < |s| ==> s[i] != s[j]
  }

  function Elems<T>(s: seq<T>): set<T>
  {
    set x | x in s
  }

  /** The JVM's internal form of a class name never contains '.'. */
  predicate InternalName(name: string)
  {
    '.' !in name
  }

  /** Java's `name.replace('/', '.')`: internal form to binary name. */
  function Dotted(name: string): (r: string)
    ensures |r| == |name|
    ensures '/' !in r
    ensures forall i :: 0 <= i < |name| && name[i] == '/' ==> r[i] == '.'
    ensures forall i :: 0 <= i < |name| && name[i] != '/' ==> r[i] == name[i]
  {
    if name == [] then []
    else [if name[0] == '/' then '.' else name[0]] + Dotted(name[1..])
  }

  /** Two internal names that differ stay different once dotted. */
  lemma DottedInjective(a: string, b: string)
    requires InternalName(a) && InternalName(b)
    requires Dotted(a) == Dotted(b)
    ensures a == b
  {
  }

  /** Without the internal-form restriction two names can share a binary name. */
  lemma DottedCollision()
    ensures Dotted("a/b") == Dotted("a.b") && "a/b" != "a.b"
  {
  }

  /** The binary names of the class definitions written on a trace, in order. */
  function DefinitionNames(trace: seq<WireEvent>): (r: seq<string>)
    ensures |r| <= |trace|
  {
    if trace == [] then []
    else if trace[0].Write? && trace[0].message.Define? then
      [trace[0].message.definition.className] + DefinitionNames(trace[1..])
    else DefinitionNames(trace[1..])
  }

  lemma {:induction false} DefinitionNamesAppend(a: seq<WireEvent>, b: seq<WireEvent>)
    ensures DefinitionNames(a + b) == DefinitionNames(a) + DefinitionNames(b)
  {
    if a == [] {
      assert a + b == b;
    } else {
      assert (a + b)[1..] == a[1..] + b;
      DefinitionNamesAppend(a[1..], b);
    }
  }
}
