/**
  The client's lazy code shipper: `sendObject` and the `replaceObject` hook of
  its dry traversal. The traversal is given as the sequence of objects that the
  serialization of the payload hands to `replaceObject`; the serialized bytes
  themselves go to a sink that discards them and are not modelled.
 */
module Shipper {
  import opened Wrappers
  import opened Wire
  import opened ResourceLoad

  /**
    The runtime class of a visited object. `SerializedLambdaClass` is the JDK's
    SerializedLambda, a bootstrap class and so without a code source; it is
    final, so it is the only class assignable to itself.
   */
  datatype ClassRef =
    | Named(name: string, hasCodeSource: bool)
    | SerializedLambdaClass
    | ArrayOf(component: ClassRef, arrayHasCodeSource: bool)

  /**
    One object handed to `replaceObject`. `capturingClass` is what
    `getCapturingClass()` reports, in internal form; it is read only when the
    object really is a SerializedLambda.
   */
  datatype Visit = Visit(cls: ClassRef, capturingClass: string)

  /** Resource path to the reads its stream delivers; absent paths are not found. */
  type Resources = map<string, seq<ReadResult>>

  datatype SendError =
    | Nyi(cls: ClassRef)              // a class with a code source: "NYI: sending over class"
    | NotALambda(cls: ClassRef)       // the cast to SerializedLambda of an array object
    | MissingResource(path: string)   // getResource returned null, so load fails
    | LoadFailed(cause: string)       // load's read raised an IOException

  /** One level of array unwrapping. */
  function Unwrap(cls: ClassRef): ClassRef
  {
    if cls.ArrayOf? then cls.component else cls
  }

  predicate HasCodeSource(cls: ClassRef)
  {
    match cls
    case Named(_, has) => has
    case SerializedLambdaClass => false
    case ArrayOf(_, has) => has
  }

  /** The object is a lambda's serialized form. */
  predicate IsLambda(v: Visit)
  {
    v.cls == SerializedLambdaClass
  }

  function ResourcePath(capturingClass: string): string
  {
    "/" + capturingClass + ".class"
  }

  predicate Loadable(resources: Resources, capturingClass: string)
  {
    ResourcePath(capturingClass) in resources
    && Drain(resources[ResourcePath(capturingClass)]).Success?
  }

  /**
    The hook lets the object through: its class has no code source, and a
    SerializedLambda class belongs to a real lambda whose capturing class is
    either already sent or can be loaded.
   */
  predicate Acceptable(sent: set<string>, v: Visit, resources: Resources)
  {
    var c := Unwrap(v.cls);
    && !HasCodeSource(c)
    && (c == SerializedLambdaClass ==>
          IsLambda(v) && (v.capturingClass !in sent ==> Loadable(resources, v.capturingClass)))
  }

  /** What the hook does for one object. */
  datatype Hook = Pass | ShipClass(name: string, definition: ClassDefinition) | Fail(error: SendError)

  /** `replaceObject` for one visited object, given the names already sent. */
  function ReplaceObject(sent: set<string>, v: Visit, resources: Resources): (r: Hook)
    ensures r.Fail? <==> !Acceptable(sent, v, resources)
    ensures r.Fail? && HasCodeSource(Unwrap(v.cls)) ==> r.error == Nyi(Unwrap(v.cls))
    ensures r.ShipClass? <==> Acceptable(sent, v, resources) && IsLambda(v) && v.capturingClass !in sent
    ensures r.ShipClass? ==> r.name == v.capturingClass
                             && r.definition.className == Dotted(r.name)
                             && Drain(resources[ResourcePath(r.name)]) == Success(r.definition.classBytes)
  {
    var c := Unwrap(v.cls);
    if HasCodeSource(c) then Fail(Nyi(c))
    else if c == SerializedLambdaClass then
      if !IsLambda(v) then Fail(NotALambda(v.cls))
      else if v.capturingClass in sent then Pass
      else
        var path := ResourcePath(v.capturingClass);
        if path !in resources then Fail(MissingResource(path))
        else match Drain(resources[path])
          case Failure(cause) => Fail(LoadFailed(cause))
          case Success(bytes) =>
            ShipClass(v.capturingClass, ClassDefinition(Dotted(v.capturingClass), bytes))
    else Pass
  }

  /** Some visited object is a lambda whose capturing class is `name`. */
  predicate Captured(visits: seq<Visit>, name: string)
  {
    exists j :: 0 <= j < |visits| && IsLambda(visits[j]) && visits[j].capturingClass == name
  }

  lemma CapturedLater(visits: seq<Visit>, name: string)
    requires visits != [] && Captured(visits[1..], name)
    ensures Captured(visits, name)
  {
  }

  /**
    The outcome of the dry traversal: the grown sent-set, the capturing classes
    shipped (in order) with their definitions, and the failure that stopped it.
   */
  datatype DryRun = DryRun(sent: set<string>, shipped: seq<string>, definitions: seq<ClassDefinition>, error: Option<SendError>)

  /** The definition shipped for a capturing class: its binary name and loaded bytes. */
  function DefinitionOf(resources: Resources, capturingClass: string): ClassDefinition
    requires Loadable(resources, capturingClass)
  {
    ClassDefinition(Dotted(capturingClass), Drain(resources[ResourcePath(capturingClass)]).value)
  }

  /** The dry traversal: the hook applied to every visited object in order. */
  function DryPass(sent: set<string>, visits: seq<Visit>, resources: Resources): (r: DryRun)
    ensures r.sent == sent + Elems(r.shipped)
    ensures |r.definitions| == |r.shipped|
    ensures forall i :: 0 <= i < |r.shipped| ==>
              && r.shipped[i] !in sent
              && Loadable(resources, r.shipped[i])
              && r.definitions[i] == DefinitionOf(resources, r.shipped[i])
    ensures Distinct(r.shipped)
    decreases |visits|
  {
    if visits == [] then DryRun(sent, [], [], None)
    else match ReplaceObject(sent, visits[0], resources)
      case Fail(e) => DryRun(sent, [], [], Some(e))
      case Pass => DryPass(sent, visits[1..], resources)
      case ShipClass(name, definition) =>
        var rest := DryPass(sent + {name}, visits[1..], resources);
        DryRun(rest.sent, [name] + rest.shipped, [definition] + rest.definitions, rest.error)
  }

  /** Only capturing classes of visited lambdas are shipped. */
  lemma {:induction false} DryPassShipsCaptured(sent: set<string>, visits: seq<Visit>, resources: Resources)
    ensures forall n :: n in DryPass(sent, visits, resources).shipped ==> Captured(visits, n)
    decreases |visits|
  {
    if visits != [] {
      match ReplaceObject(sent, visits[0], resources)
      case Fail(e) =>
      case Pass =>
        var rest := DryPass(sent, visits[1..], resources);
        DryPassShipsCaptured(sent, visits[1..], resources);
        forall n | n in rest.shipped ensures Captured(visits, n) { CapturedLater(visits, n); }
      case ShipClass(name, definition) =>
        var rest := DryPass(sent + {name}, visits[1..], resources);
        DryPassShipsCaptured(sent + {name}, visits[1..], resources);
        forall n | n in rest.shipped ensures Captured(visits, n) { CapturedLater(visits, n); }
        assert IsLambda(visits[0]) && visits[0].capturingClass == name;
    }
  }

  /**
    A traversal that completes let every object through (judged against the
    sent-set it started from), and every visited lambda's capturing class is in
    the sent-set afterwards.
   */
  lemma {:induction false} DryPassCovers(sent: set<string>, visits: seq<Visit>, resources: Resources)
    requires DryPass(sent, visits, resources).error.None?
    ensures forall j :: 0 <= j < |visits| ==>
              && Acceptable(sent, visits[j], resources)
              && (IsLambda(visits[j]) ==> visits[j].capturingClass in DryPass(sent, visits, resources).sent)
    decreases |visits|
  {
    if visits != [] {
      var r := DryPass(sent, visits, resources);
      var hook := ReplaceObject(sent, visits[0], resources);
      var sent' := if hook.ShipClass? then sent + {hook.name} else sent;
      assert r.sent == DryPass(sent', visits[1..], resources).sent;
      DryPassCovers(sent', visits[1..], resources);
      forall j | 0 <= j < |visits|
        ensures Acceptable(sent, visits[j], resources)
        ensures IsLambda(visits[j]) ==> visits[j].capturingClass in r.sent
      {
        if j > 0 {
          assert visits[j] == visits[1..][j - 1];
          assert Acceptable(sent', visits[j], resources);
        }
      }
    }
  }

  /** A traversal whose every object the hook lets through completes. */
  lemma {:induction false} DryPassSucceeds(sent: set<string>, visits: seq<Visit>, resources: Resources)
    requires forall j :: 0 <= j < |visits| ==> Acceptable(sent, visits[j], resources)
    ensures DryPass(sent, visits, resources).error.None?
    decreases |visits|
  {
    if visits != [] {
      assert Acceptable(sent, visits[0], resources);
      var sent' := match ReplaceObject(sent, visits[0], resources)
        case ShipClass(name, _) => sent + {name}
        case _ => sent;
      forall j | 0 <= j < |visits[1..]|
        ensures Acceptable(sent', visits[1..][j], resources)
      {
        assert visits[1..][j] == visits[j + 1];
        assert Acceptable(sent, visits[j + 1], resources);
      }
      DryPassSucceeds(sent', visits[1..], resources);
    }
  }

  /**
    A failed traversal stopped at some visit k: everything the first k visits
    shipped is kept (nothing is rolled back), visit k failed, and no later
    visit was looked at.
   */
  lemma {:induction false} DryPassFailsAt(sent: set<string>, visits: seq<Visit>, resources: Resources)
    requires DryPass(sent, visits, resources).error.Some?
    decreases |visits|
    ensures var r := DryPass(sent, visits, resources);
            exists k :: 0 <= k < |visits|
              && DryPass(sent, visits[..k], resources) == DryRun(r.sent, r.shipped, r.definitions, None)
              && ReplaceObject(r.sent, visits[k], resources) == Fail(r.error.value)
  {
    var r := DryPass(sent, visits, resources);
    assert visits != [];
    match ReplaceObject(sent, visits[0], resources)
    case Fail(e) =>
      assert visits[..0] == [];
      assert DryPass(sent, visits[..0], resources) == DryRun(r.sent, r.shipped, r.definitions, None);
    case Pass =>
      assert r == DryPass(sent, visits[1..], resources);
      DryPassFailsAt(sent, visits[1..], resources);
      var k :| 0 <= k < |visits[1..]|
              && DryPass(sent, visits[1..][..k], resources) == DryRun(r.sent, r.shipped, r.definitions, None)
              && ReplaceObject(r.sent, visits[1..][k], resources) == Fail(r.error.value);
      DryPassPrefixPass(sent, visits, resources, k);
      assert visits[k + 1] == visits[1..][k];
    case ShipClass(name, definition) =>
      var rest := DryPass(sent + {name}, visits[1..], resources);
      DryPassFailsAt(sent + {name}, visits[1..], resources);
      var k :| 0 <= k < |visits[1..]|
              && DryPass(sent + {name}, visits[1..][..k], resources) == DryRun(rest.sent, rest.shipped, rest.definitions, None)
              && ReplaceObject(rest.sent, visits[1..][k], resources) == Fail(rest.error.value);
      DryPassPrefixShip(sent, visits, resources, k);
      assert visits[k + 1] == visits[1..][k];
  }

  /**
    Traversal order: a traversal of `a + b` whose part over `a` completes ships
    what `a` ships, then what `b` ships from the sent-set `a` left behind.
   */
  lemma {:induction false} DryPassAppend(sent: set<string>, a: seq<Visit>, b: seq<Visit>, resources: Resources)
    requires DryPass(sent, a, resources).error.None?
    ensures var x := DryPass(sent, a, resources);
            var y := DryPass(x.sent, b, resources);
            DryPass(sent, a + b, resources)
              == DryRun(y.sent, x.shipped + y.shipped, x.definitions + y.definitions, y.error)
    decreases |a|
  {
    if a == [] {
      assert a + b == b;
    } else {
      var hook := ReplaceObject(sent, a[0], resources);
      var sent' := if hook.ShipClass? then sent + {hook.name} else sent;
      DryPassUnfold(sent, a + b, resources);
      DryPassUnfold(sent, a, resources);
      assert (a + b)[0] == a[0];
      assert (a + b)[1..] == a[1..] + b;
      DryPassAppend(sent', a[1..], b, resources);
      if hook.ShipClass? {
        var x := DryPass(sent', a[1..], resources);
        ShipBeforeRest(hook.name, hook.definition, x, DryPass(x.sent, b, resources), DryPass(sent', a[1..] + b, resources));
      }
    }
  }

  /** Shipping one class before a joined traversal is shipping it before the first part. */
  lemma ShipBeforeRest(name: string, definition: ClassDefinition, x: DryRun, y: DryRun, joined: DryRun)
    requires joined == DryRun(y.sent, x.shipped + y.shipped, x.definitions + y.definitions, y.error)
    ensures DryRun(joined.sent, [name] + joined.shipped, [definition] + joined.definitions, joined.error)
              == DryRun(y.sent, ([name] + x.shipped) + y.shipped, ([definition] + x.definitions) + y.definitions, y.error)
  {
    assert [name] + (x.shipped + y.shipped) == ([name] + x.shipped) + y.shipped;
    assert [definition] + (x.definitions + y.definitions) == ([definition] + x.definitions) + y.definitions;
  }

  /** One step of the traversal, as the hook's verdict on the first object decides it. */
  lemma DryPassUnfold(sent: set<string>, visits: seq<Visit>, resources: Resources)
    requires visits != []
    ensures var hook := ReplaceObject(sent, visits[0], resources);
            && (hook.Fail? ==> DryPass(sent, visits, resources) == DryRun(sent, [], [], Some(hook.error)))
            && (hook.Pass? ==> DryPass(sent, visits, resources) == DryPass(sent, visits[1..], resources))
            && (hook.ShipClass? ==>
                  var rest := DryPass(sent + {hook.name}, visits[1..], resources);
                  DryPass(sent, visits, resources)
                    == DryRun(rest.sent, [hook.name] + rest.shipped, [hook.definition] + rest.definitions, rest.error))
  {
  }

  /** A prefix whose first object passes is traversed as the rest of the prefix. */
  lemma DryPassPrefixPass(sent: set<string>, visits: seq<Visit>, resources: Resources, k: nat)
    requires k + 1 <= |visits| && ReplaceObject(sent, visits[0], resources).Pass?
    ensures DryPass(sent, visits[..k + 1], resources) == DryPass(sent, visits[1..][..k], resources)
  {
    var prefix := visits[..k + 1];
    assert prefix[0] == visits[0] && prefix[1..] == visits[1..][..k];
  }

  /** A prefix whose first object ships does so before the rest of the prefix. */
  lemma DryPassPrefixShip(sent: set<string>, visits: seq<Visit>, resources: Resources, k: nat)
    requires k + 1 <= |visits| && ReplaceObject(sent, visits[0], resources).ShipClass?
    ensures var hook := ReplaceObject(sent, visits[0], resources);
            var inner := DryPass(sent + {hook.name}, visits[1..][..k], resources);
            DryPass(sent, visits[..k + 1], resources)
              == DryRun(inner.sent, [hook.name] + inner.shipped, [hook.definition] + inner.definitions, inner.error)
  {
    var prefix := visits[..k + 1];
    assert prefix[0] == visits[0] && prefix[1..] == visits[1..][..k];
  }

  /** A definition written on the real channel, per shipped class. */
  function DefinitionWrites(definitions: seq<ClassDefinition>): (r: seq<WireEvent>)
    ensures |r| == |definitions|
    ensures forall i :: 0 <= i < |r| ==> r[i] == Write(Define(definitions[i]))
  {
    if definitions == [] then []
    else [Write(Define(definitions[0]))] + DefinitionWrites(definitions[1..])
  }

  /** The binary names of shipped internal names, in order. */
  function DottedAll(names: seq<string>): (r: seq<string>)
    ensures |r| == |names|
    ensures forall i :: 0 <= i < |r| ==> r[i] == Dotted(names[i])
  {
    if names == [] then [] else [Dotted(names[0])] + DottedAll(names[1..])
  }

  lemma {:induction false} DefinitionNamesOfWrites(definitions: seq<ClassDefinition>, names: seq<string>)
    requires |definitions| == |names|
    requires forall i :: 0 <= i < |names| ==> definitions[i].className == Dotted(names[i])
    ensures DefinitionNames(DefinitionWrites(definitions)) == DottedAll(names)
  {
    if definitions != [] {
      var w := DefinitionWrites(definitions);
      assert w[1..] == DefinitionWrites(definitions[1..]);
      DefinitionNamesOfWrites(definitions[1..], names[1..]);
    }
  }

  /** The result of `sendObject`: the grown sent-set and the writes on the real channel. */
  datatype Shipment = Shipment(sent: set<string>, shipped: seq<string>, trace: seq<WireEvent>, error: Option<SendError>)

  /**
    `sendObject`: the dry traversal (which may write class definitions on the
    real channel), then, if it did not fail, the payload written once and
    flushed. Each capturing class not yet sent is shipped once, under its
    binary name, and recorded. Code comes before the payload: every write
    before the payload is a class definition; a completed send ends with the
    payload, written once, and a flush; a failed send never writes it.
   */
  function SendObject(sent: set<string>, visits: seq<Visit>, resources: Resources, payload: Payload): (r: Shipment)
    ensures r.sent == sent + Elems(r.shipped)
    ensures Distinct(r.shipped)
    ensures forall i :: 0 <= i < |r.shipped| ==> r.shipped[i] !in sent && Captured(visits, r.shipped[i])
    ensures DefinitionNames(r.trace) == DottedAll(r.shipped)
    ensures r.error.None? ==>
              && |r.trace| >= 2
              && r.trace[|r.trace| - 2] == Write(Send(payload))
              && r.trace[|r.trace| - 1] == Flush
    ensures forall i :: 0 <= i < |r.trace| && (r.error.Some? || i < |r.trace| - 2) ==>
              r.trace[i].Write? && r.trace[i].message.Define?
  {
    var dry := DryPass(sent, visits, resources);
    var writes := DefinitionWrites(dry.definitions);
    DryPassWrites(sent, visits, resources);
    if dry.error.Some? then
      Shipment(dry.sent, dry.shipped, writes, dry.error)
    else
      PayloadAfterDefinitions(dry.definitions, payload);
      Shipment(dry.sent, dry.shipped, writes + [Write(Send(payload)), Flush], None)
  }

  /** The definitions a dry pass writes name, in order, the captured classes it shipped. */
  lemma DryPassWrites(sent: set<string>, visits: seq<Visit>, resources: Resources)
    ensures var dry := DryPass(sent, visits, resources);
            && DefinitionNames(DefinitionWrites(dry.definitions)) == DottedAll(dry.shipped)
            && forall i :: 0 <= i < |dry.shipped| ==> Captured(visits, dry.shipped[i])
  {
    var dry := DryPass(sent, visits, resources);
    DefinitionNamesOfWrites(dry.definitions, dry.shipped);
    DryPassShipsCaptured(sent, visits, resources);
    forall i | 0 <= i < |dry.shipped|
      ensures Captured(visits, dry.shipped[i])
    {
      assert dry.shipped[i] in dry.shipped;
    }
  }

  /** Definitions, then the payload and a flush: the payload is written once, last but for the flush. */
  lemma PayloadAfterDefinitions(definitions: seq<ClassDefinition>, payload: Payload)
    ensures var t := DefinitionWrites(definitions) + [Write(Send(payload)), Flush];
            && |t| >= 2 && t[|t| - 2] == Write(Send(payload)) && t[|t| - 1] == Flush
            && (forall i :: 0 <= i < |t| - 2 ==> t[i].Write? && t[i].message.Define?)
            && DefinitionNames(t) == DefinitionNames(DefinitionWrites(definitions))
  {
    var w := DefinitionWrites(definitions);
    var tail := [Write(Send(payload)), Flush];
    DefinitionNamesAppend(w, tail);
    assert tail[1..] == [Flush];
    assert DefinitionNames(tail) == [];
    assert w + [] == w;
  }

  /**
    A send completes exactly when the dry traversal does; a completed send met
    no class with a code source and leaves every visited lambda's capturing
    class in the sent-set; a send whose every object is acceptable completes,
    and a failed one was stopped by an object that is not.
   */
  lemma SendObjectCompletes(sent: set<string>, visits: seq<Visit>, resources: Resources, payload: Payload)
    ensures var r := SendObject(sent, visits, resources, payload);
            && (r.error.None? ==>
                  forall j :: 0 <= j < |visits| ==>
                    && !HasCodeSource(Unwrap(visits[j].cls))
                    && (IsLambda(visits[j]) ==> visits[j].capturingClass in r.sent))
            && (r.error.None? <==> forall j :: 0 <= j < |visits| ==> Acceptable(sent, visits[j], resources))
  {
    var r := SendObject(sent, visits, resources, payload);
    if r.error.None? {
      DryPassCovers(sent, visits, resources);
    }
    if forall j :: 0 <= j < |visits| ==> Acceptable(sent, visits[j], resources) {
      DryPassSucceeds(sent, visits, resources);
    }
  }
}
