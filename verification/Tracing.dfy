/**
  Tracing a PyTorch module: which converters run when wrapped methods call one another, what a
  wrapped call returns, and on which device a layer is placed while modules are entered and left.
*/
module Tracing {
  import opened Wrappers

  /**
    A call of a wrapped method: the calls its own body makes, then those its converter makes.
    `override` is set when the converter ends by replacing the output.
  */
  datatype Call = Call(args: int, isReal: bool, output: int, body: seq<Call>, converter: seq<Call>,
                       override: Option<int>)

  datatype Device = GPU | DLA

  /** What a module does when it runs: it adds layers and runs other modules. */
  datatype Item = Layer | Module(id: nat, items: seq<Item>)

  /** Where a layer was put: under the name of which module, and on which device. */
  datatype Placement = Placement(id: nat, device: Device)

  // ---------- which converters should run ----------

  /** A call in a tree of calls, with the kinds of its callers, outermost first. */
  datatype Visit = Visit(args: int, callers: seq<bool>)

  function Visits(c: Call, callers: seq<bool>): seq<Visit>
    decreases c, 0
  {
    var inside := callers + [c.isReal];
    VisitsOfAll(c.body, inside) + [Visit(c.args, callers)] + VisitsOfAll(c.converter, inside)
  }

  function VisitsOfAll(cs: seq<Call>, callers: seq<bool>): seq<Visit>
    decreases cs
  {
    if cs == [] then [] else Visits(cs[0], callers) + VisitsOfAll(cs[1..], callers)
  }

  /** The arguments of the calls without a real caller. */
  function Unshadowed(vs: seq<Visit>): seq<int> {
    if vs == [] then [] else
      var last := |vs| - 1;
      Unshadowed(vs[..last]) + if true in vs[last].callers then [] else [vs[last].args]
  }

  lemma {:induction false} UnshadowedConcat(a: seq<Visit>, b: seq<Visit>)
    ensures Unshadowed(a + b) == Unshadowed(a) + Unshadowed(b)
    decreases |b|
  {
    if b == [] {
      assert a + b == a;
    } else {
      var last := |b| - 1;
      assert (a + b)[..|a| + last] == a + b[..last];
      UnshadowedConcat(a, b[..last]);
    }
  }

  lemma Assoc(a: seq<int>, b: seq<int>, c: seq<int>)
    ensures a + b + c == a + (b + c)
  {
  }

  lemma UnshadowedAll(before: seq<int>, cs: seq<Call>, callers: seq<bool>)
    requires cs != []
    ensures before + Unshadowed(Visits(cs[0], callers)) + Unshadowed(VisitsOfAll(cs[1..], callers))
         == before + Unshadowed(VisitsOfAll(cs, callers))
  {
    UnshadowedConcat(Visits(cs[0], callers), VisitsOfAll(cs[1..], callers));
    Assoc(before, Unshadowed(Visits(cs[0], callers)), Unshadowed(VisitsOfAll(cs[1..], callers)));
  }

  lemma UnshadowedCall(c: Call, callers: seq<bool>)
    ensures var inside := callers + [c.isReal];
      Unshadowed(Visits(c, callers)) ==
        Unshadowed(VisitsOfAll(c.body, inside))
        + (if true in callers then [] else [c.args])
        + Unshadowed(VisitsOfAll(c.converter, inside))
  {
    var inside := callers + [c.isReal];
    var body, self := VisitsOfAll(c.body, inside), [Visit(c.args, callers)];
    assert self[..0] == [];
    UnshadowedConcat(body, self);
    UnshadowedConcat(body + self, VisitsOfAll(c.converter, inside));
  }

  /** What a call adds to the converters that have run: nothing below a real caller. */
  lemma ConvertedCall(before: seq<int>, c: Call, callers: seq<bool>)
    ensures var inside := callers + [c.isReal];
      before + Unshadowed(VisitsOfAll(c.body, inside))
        + (if true in callers then [] else [c.args] + Unshadowed(VisitsOfAll(c.converter, inside)))
      == before + Unshadowed(Visits(c, callers))
  {
    var inside := callers + [c.isReal];
    UnshadowedCall(c, callers);
    if true in callers {
      NothingUnshadowed(c.converter, inside);
    } else {
      Assoc(Unshadowed(VisitsOfAll(c.body, inside)), [c.args], Unshadowed(VisitsOfAll(c.converter, inside)));
    }
    Assoc(before, Unshadowed(VisitsOfAll(c.body, inside)),
      if true in callers then [] else [c.args] + Unshadowed(VisitsOfAll(c.converter, inside)));
  }

  /** What a wrapped call gives back; nothing at all when the converter of a call that is not real
      makes wrapped calls itself and does not replace the output afterwards. */
  function Returned(c: Call, locked: bool): Option<int> {
    if locked then Some(c.output)
    else if c.override.Some? then c.override
    else if !c.isReal && c.converter != [] then None
    else Some(c.output)
  }

  /** What a wrapped call should give back: the method's output, or what its converter replaced it with. */
  function Proper(c: Call, locked: bool): Option<int> {
    if !locked && c.override.Some? then c.override else Some(c.output)
  }

  /** What the calls of a tree give back, in the order in which they end. */
  function Answers(c: Call, locked: bool): seq<Option<int>>
    decreases c, 0
  {
    AnswersOfAll(c.body, locked || c.isReal)
    + (if locked then [] else AnswersOfAll(c.converter, c.isReal))
    + [Returned(c, locked)]
  }

  function AnswersOfAll(cs: seq<Call>, locked: bool): seq<Option<int>>
    decreases cs
  {
    if cs == [] then [] else Answers(cs[0], locked) + AnswersOfAll(cs[1..], locked)
  }

  /** What they should give back. */
  function ProperAnswers(c: Call, locked: bool): (r: seq<Option<int>>)
    ensures |r| == |Answers(c, locked)|
    decreases c, 0
  {
    ProperAnswersOfAll(c.body, locked || c.isReal)
    + (if locked then [] else ProperAnswersOfAll(c.converter, c.isReal))
    + [Proper(c, locked)]
  }

  function ProperAnswersOfAll(cs: seq<Call>, locked: bool): (r: seq<Option<int>>)
    ensures |r| == |AnswersOfAll(cs, locked)|
    decreases cs
  {
    if cs == [] then [] else ProperAnswers(cs[0], locked) + ProperAnswersOfAll(cs[1..], locked)
  }

  /** No converter of a call that is not real makes wrapped calls. */
  predicate Quiet(c: Call)
    decreases c, 0
  {
    (c.isReal || c.converter == []) && AllQuiet(c.body) && AllQuiet(c.converter)
  }

  predicate AllQuiet(cs: seq<Call>)
    decreases cs
  {
    cs == [] || (Quiet(cs[0]) && AllQuiet(cs[1..]))
  }

  /** No converter that runs for a call that is not real makes wrapped calls and then leaves the output alone. */
  predicate KeepsOutputs(c: Call, locked: bool)
    decreases c, 0
  {
    && (locked || c.isReal || c.converter == [] || c.override.Some?)
    && AllKeepOutputs(c.body, locked || c.isReal)
    && (locked || AllKeepOutputs(c.converter, c.isReal))
  }

  predicate AllKeepOutputs(cs: seq<Call>, locked: bool)
    decreases cs
  {
    cs == [] || (KeepsOutputs(cs[0], locked) && AllKeepOutputs(cs[1..], locked))
  }

  lemma SameParts(a: seq<Option<int>>, b: seq<Option<int>>, c: seq<Option<int>>, d: seq<Option<int>>)
    requires |a| == |c|
    ensures a + b == c + d <==> a == c && b == d
  {
    if a + b == c + d {
      assert a == (a + b)[..|a|] && c == (c + d)[..|c|];
      assert b == (a + b)[|a|..] && d == (c + d)[|c|..];
    }
  }

  /** Every call of a tree, those inside converters included, gives back what it should exactly when
      the tree keeps its outputs. */
  lemma {:induction false} AnswersAreProperIff(c: Call, locked: bool)
    ensures Answers(c, locked) == ProperAnswers(c, locked) <==> KeepsOutputs(c, locked)
    decreases c, 0
  {
    var body, properBody := AnswersOfAll(c.body, locked || c.isReal), ProperAnswersOfAll(c.body, locked || c.isReal);
    var conv := if locked then [] else AnswersOfAll(c.converter, c.isReal);
    var properConv := if locked then [] else ProperAnswersOfAll(c.converter, c.isReal);
    AllAnswersAreProperIff(c.body, locked || c.isReal);
    if !locked { AllAnswersAreProperIff(c.converter, c.isReal); }
    SameParts(body + conv, [Returned(c, locked)], properBody + properConv, [Proper(c, locked)]);
    SameParts(body, conv, properBody, properConv);
  }

  lemma {:induction false} AllAnswersAreProperIff(cs: seq<Call>, locked: bool)
    ensures AnswersOfAll(cs, locked) == ProperAnswersOfAll(cs, locked) <==> AllKeepOutputs(cs, locked)
    decreases cs
  {
    if cs == [] {
    } else {
      AnswersAreProperIff(cs[0], locked);
      AllAnswersAreProperIff(cs[1..], locked);
      SameParts(Answers(cs[0], locked), AnswersOfAll(cs[1..], locked),
        ProperAnswers(cs[0], locked), ProperAnswersOfAll(cs[1..], locked));
    }
  }

  /** The converters of the repository that are not real make no wrapped calls, so no output is lost. */
  lemma {:induction false} QuietTreesKeepOutputs(c: Call, locked: bool)
    requires Quiet(c)
    ensures KeepsOutputs(c, locked)
    decreases c, 0
  {
    AllQuietTreesKeepOutputs(c.body, locked || c.isReal);
    AllQuietTreesKeepOutputs(c.converter, c.isReal);
  }

  lemma {:induction false} AllQuietTreesKeepOutputs(cs: seq<Call>, locked: bool)
    requires AllQuiet(cs)
    ensures AllKeepOutputs(cs, locked)
    decreases cs
  {
    if cs == [] {
    } else {
      QuietTreesKeepOutputs(cs[0], locked);
      AllQuietTreesKeepOutputs(cs[1..], locked);
    }
  }

  lemma QuietAnswersAreProper(c: Call, locked: bool)
    requires Quiet(c)
    ensures Answers(c, locked) == ProperAnswers(c, locked) && Returned(c, locked) == Proper(c, locked)
  {
    QuietTreesKeepOutputs(c, locked);
    AnswersAreProperIff(c, locked);
  }

  lemma AnswersCall(before: seq<Option<int>>, c: Call, locked: bool)
    ensures before + AnswersOfAll(c.body, locked || c.isReal) + (if locked then [] else AnswersOfAll(c.converter, c.isReal))
      + [Returned(c, locked)] == before + Answers(c, locked)
  {
    Join(before, AnswersOfAll(c.body, locked || c.isReal), if locked then [] else AnswersOfAll(c.converter, c.isReal),
      [Returned(c, locked)]);
  }

  lemma Join<T>(a: seq<T>, b: seq<T>, c: seq<T>, d: seq<T>)
    ensures a + b + c + d == a + (b + c + d)
  {
  }

  /** A converter registered from outside could lose an output: it is not real and makes one wrapped call,
      whose end clears the return value that the two calls share. */
  lemma OutsideConverterLosesOutput()
    ensures var c := Call(1, false, 7, [], [Call(2, true, 8, [], [], None)], None);
      Answers(c, false) == [Some(8), None] && ProperAnswers(c, false) == [Some(8), Some(7)]
  {
    var inner := Call(2, true, 8, [], [], None);
    assert Answers(inner, false) == [Some(8)] && ProperAnswers(inner, false) == [Some(8)];
    assert [inner][1..] == [];
    assert AnswersOfAll([inner], false) == [Some(8)] && ProperAnswersOfAll([inner], false) == [Some(8)];
  }

  // ---------- which device a layer should get ----------

  /** The innermost annotated module of those entered decides. */
  function DeviceFor(devices: map<nat, Device>, default: Device, modules: seq<nat>): Device {
    if modules == [] then default
    else if modules[|modules| - 1] in devices then devices[modules[|modules| - 1]]
    else DeviceFor(devices, default, modules[..|modules| - 1])
  }

  function Placements(devices: map<nat, Device>, default: Device, modules: seq<nat>, item: Item): seq<Placement>
    requires modules != [] || item.Module?
    decreases item, 0
  {
    match item
    case Layer => [Placement(modules[|modules| - 1], DeviceFor(devices, default, modules))]
    case Module(id, items) => PlacementsOfAll(devices, default, modules + [id], items)
  }

  function PlacementsOfAll(devices: map<nat, Device>, default: Device, modules: seq<nat>, items: seq<Item>)
    : seq<Placement>
    requires modules != []
    decreases items
  {
    if items == [] then []
    else Placements(devices, default, modules, items[0]) + PlacementsOfAll(devices, default, modules, items[1..])
  }

  /** The stack of annotated modules that belongs to a stack of modules. */
  function Annotated(devices: map<nat, Device>, modules: seq<nat>): seq<(nat, Device)> {
    if modules == [] then [] else
      var last := |modules| - 1;
      Annotated(devices, modules[..last]) +
      if modules[last] in devices then [(modules[last], devices[modules[last]])] else []
  }

  lemma {:induction false} TopIsInnermost(devices: map<nat, Device>, default: Device, modules: seq<nat>)
    ensures var stack := Annotated(devices, modules);
      && DeviceFor(devices, default, modules) == (if stack == [] then default else stack[|stack| - 1].1)
      && (stack != [] ==> stack[|stack| - 1].0 in devices)
    decreases |modules|
  {
    if modules == [] {
    } else {
      TopIsInnermost(devices, default, modules[..|modules| - 1]);
    }
  }

  /** The device is that of the last annotated module, if there is one, and else the default. */
  lemma {:induction false} InnermostDecides(devices: map<nat, Device>, default: Device, modules: seq<nat>, k: nat)
    requires k <= |modules| && forall j :: k <= j < |modules| ==> modules[j] !in devices
    ensures k == 0 ==> DeviceFor(devices, default, modules) == default
    ensures k > 0 && modules[k - 1] in devices ==> DeviceFor(devices, default, modules) == devices[modules[k - 1]]
    decreases |modules|
  {
    if k < |modules| {
      InnermostDecides(devices, default, modules[..|modules| - 1], k);
    }
  }

  lemma {:induction false} PlacementsConcat(devices: map<nat, Device>, default: Device, modules: seq<nat>,
                                            a: seq<Item>, b: seq<Item>)
    requires modules != []
    ensures PlacementsOfAll(devices, default, modules, a + b)
         == PlacementsOfAll(devices, default, modules, a) + PlacementsOfAll(devices, default, modules, b)
    decreases |a|
  {
    if a == [] {
      assert a + b == b;
    } else {
      assert (a + b)[1..] == a[1..] + b;
      PlacementsConcat(devices, default, modules, a[1..], b);
    }
  }

  /** What a module places is what its items place, in order; a layer goes under the name of the innermost
      module to the device for the modules around it, and a module inside is one more of these. */
  lemma PlacementLaws(devices: map<nat, Device>, default: Device, modules: seq<nat>, id: nat, j: nat,
                      a: seq<Item>, b: seq<Item>)
    ensures Placements(devices, default, modules, Module(id, a + b))
         == Placements(devices, default, modules, Module(id, a)) + Placements(devices, default, modules, Module(id, b))
    ensures Placements(devices, default, modules, Module(id, [])) == []
    ensures Placements(devices, default, modules, Module(id, [Layer]))
         == [Placement(id, DeviceFor(devices, default, modules + [id]))]
    ensures Placements(devices, default, modules, Module(id, [Module(j, a)]))
         == Placements(devices, default, modules + [id], Module(j, a))
  {
    PlacementsConcat(devices, default, modules + [id], a, b);
    OnePlaced(devices, default, modules + [id], Module(j, a));
    OnePlaced(devices, default, modules + [id], Layer);
  }

  lemma OnePlaced(devices: map<nat, Device>, default: Device, modules: seq<nat>, item: Item)
    requires modules != []
    ensures PlacementsOfAll(devices, default, modules, [item]) == Placements(devices, default, modules, item)
  {
    assert [item][1..] == [];
    var one := Placements(devices, default, modules, item);
    assert one + [] == one;
  }

  lemma AnnotatedPush(devices: map<nat, Device>, modules: seq<nat>, id: nat)
    ensures Annotated(devices, modules + [id]) ==
      Annotated(devices, modules) + (if id in devices then [(id, devices[id])] else [])
  {
    assert (modules + [id])[..|modules|] == modules;
  }

  // ---------- the conversion context ----------

  class ConversionContext {
    const devices: map<nat, Device>
    const defaultDevice: Device
    var lock: bool
    var methodArgs: Option<int>
    var methodReturn: Option<int>
    var moduleStack: seq<nat>
    var deviceTypeStack: seq<(nat, Device)>
    /** The arguments each converter found, in the order the converters were started. */
    var converted: seq<int>
    /** What the wrapped calls that have ended gave back. */
    var returned: seq<Option<int>>
    /** The layers configured so far. */
    var placed: seq<Placement>

    constructor (devices: map<nat, Device>, default: Device)
      ensures this.devices == devices && defaultDevice == default
      ensures !lock && moduleStack == [] && deviceTypeStack == [] && converted == [] && returned == [] && placed == []
    {
      this.devices, defaultDevice := devices, default;
      lock, methodArgs, methodReturn := false, None, None;
      moduleStack, deviceTypeStack, converted, returned, placed := [], [], [], [], [];
    }

    /**
      Runs a wrapped method. With the lock held by a real caller exactly when there is one, the
      converters that run are those of the calls without a real caller, each on its own
      arguments, and the lock is afterwards as before.  When no converter of a call that is not real
      makes wrapped calls, every call of the tree gives back its method's output or what its
      converter replaced it with.
    */
    method Wrapper(c: Call, ghost callers: seq<bool>) returns (outputs: Option<int>)
      requires lock <==> true in callers
      modifies this`lock, this`methodArgs, this`methodReturn, this`converted, this`returned
      ensures lock == old(lock)
      ensures converted == old(converted) + Unshadowed(Visits(c, callers))
      ensures outputs == Returned(c, old(lock)) && returned == old(returned) + Answers(c, old(lock))
      ensures Quiet(c) ==> outputs == Proper(c, old(lock)) && returned == old(returned) + ProperAnswers(c, old(lock))
      ensures if old(lock) then methodArgs == old(methodArgs) && methodReturn == old(methodReturn)
              else methodArgs == None && methodReturn == None
      decreases c, 1
    {
      var skip := true;
      ghost var inside := callers + [c.isReal];
      if !lock {
        if c.isReal {
          lock := true;
        }
        skip := false;
      }
      RunAll(c.body, inside);
      outputs := Some(c.output);
      if !skip {
        outputs := Convert(c, inside);
      }
      ConvertedCall(old(converted), c, callers);
      AnswersCall(old(returned), c, old(lock));
      returned := returned + [outputs];
      if Quiet(c) { QuietAnswersAreProper(c, old(lock)); }
    }

    /** Runs the converter of a call that was not skipped, and gives up the lock. */
    method Convert(c: Call, ghost inside: seq<bool>) returns (outputs: Option<int>)
      requires (lock <==> true in inside) && (lock <==> c.isReal)
      modifies this`lock, this`methodArgs, this`methodReturn, this`converted, this`returned
      ensures !lock && methodArgs == None && methodReturn == None
      ensures converted == old(converted) + ([c.args] + Unshadowed(VisitsOfAll(c.converter, inside)))
      ensures outputs == Returned(c, false) && returned == old(returned) + AnswersOfAll(c.converter, c.isReal)
      decreases c, 0
    {
      methodArgs := Some(c.args);
      methodReturn := Some(c.output);
      converted := converted + [methodArgs.value];
      RunAll(c.converter, inside);
      if c.override.Some? {
        methodReturn := c.override;
      }
      outputs := methodReturn;
      methodArgs := None;
      methodReturn := None;
      lock := false;
    }

    method RunAll(cs: seq<Call>, ghost callers: seq<bool>)
      requires lock <==> true in callers
      modifies this`lock, this`methodArgs, this`methodReturn, this`converted, this`returned
      ensures lock == old(lock)
      ensures converted == old(converted) + Unshadowed(VisitsOfAll(cs, callers))
      ensures returned == old(returned) + AnswersOfAll(cs, old(lock))
      ensures if old(lock) || cs == [] then methodArgs == old(methodArgs) && methodReturn == old(methodReturn)
              else methodArgs == None && methodReturn == None
      decreases cs
    {
      if cs != [] {
        UnshadowedAll(converted, cs, callers);
        var outputs := Wrapper(cs[0], callers);
        RunAll(cs[1..], callers);
      }
    }

    function CurrentDeviceType(): Device
      reads this
    {
      if deviceTypeStack != [] then deviceTypeStack[|deviceTypeStack| - 1].1 else defaultDevice
    }

    method ModulePreHook(id: nat)
      modifies this`moduleStack, this`deviceTypeStack
      ensures moduleStack == old(moduleStack) + [id]
      ensures deviceTypeStack == old(deviceTypeStack) + (if id in devices then [(id, devices[id])] else [])
    {
      moduleStack := moduleStack + [id];
      if id in devices {
        deviceTypeStack := deviceTypeStack + [(id, devices[id])];
      }
    }

    /** Pops the device when the module on top of the device stack is the one that ends. */
    method ModulePostHook(id: nat)
      requires moduleStack != []
      modifies this`moduleStack, this`deviceTypeStack
      ensures moduleStack == old(moduleStack)[..|old(moduleStack)| - 1]
      ensures var s := old(deviceTypeStack);
        deviceTypeStack == if s != [] && s[|s| - 1].0 == id then s[..|s| - 1] else s
    {
      if deviceTypeStack != [] && deviceTypeStack[|deviceTypeStack| - 1].0 == id {
        deviceTypeStack := deviceTypeStack[..|deviceTypeStack| - 1];
      }
      moduleStack := moduleStack[..|moduleStack| - 1];
    }

    /** Runs a module between its hooks; every layer goes to the device of the innermost annotated
        module around it, and both stacks end as they began. */
    method RunItem(item: Item)
      requires moduleStack != [] || item.Module?
      requires deviceTypeStack == Annotated(devices, moduleStack)
      modifies this`moduleStack, this`deviceTypeStack, this`placed
      ensures moduleStack == old(moduleStack) && deviceTypeStack == old(deviceTypeStack)
      ensures placed == old(placed) + Placements(devices, defaultDevice, old(moduleStack), item)
      decreases item, 0
    {
      match item
      case Layer =>
        TopIsInnermost(devices, defaultDevice, moduleStack);
        placed := placed + [Placement(moduleStack[|moduleStack| - 1], CurrentDeviceType())];
      case Module(id, items) =>
        ghost var modules := moduleStack;
        AnnotatedPush(devices, modules, id);
        TopIsInnermost(devices, defaultDevice, modules);
        ModulePreHook(id);
        RunItems(items);
        ModulePostHook(id);
        assert moduleStack == modules;
    }

    method RunItems(items: seq<Item>)
      requires moduleStack != [] && deviceTypeStack == Annotated(devices, moduleStack)
      modifies this`moduleStack, this`deviceTypeStack, this`placed
      ensures moduleStack == old(moduleStack) && deviceTypeStack == old(deviceTypeStack)
      ensures placed == old(placed) + PlacementsOfAll(devices, defaultDevice, old(moduleStack), items)
      decreases items
    {
      if items != [] {
        RunItem(items[0]);
        RunItems(items[1..]);
      }
    }
  }

  /** Below a real caller no converter runs. */
  lemma {:induction false} NothingUnshadowed(cs: seq<Call>, callers: seq<bool>)
    requires true in callers
    ensures Unshadowed(VisitsOfAll(cs, callers)) == []
    decreases cs
  {
    if cs == [] {
    } else {
      NothingUnshadowedCall(cs[0], callers);
      NothingUnshadowed(cs[1..], callers);
      UnshadowedConcat(Visits(cs[0], callers), VisitsOfAll(cs[1..], callers));
    }
  }

  lemma {:induction false} NothingUnshadowedCall(c: Call, callers: seq<bool>)
    requires true in callers
    ensures Unshadowed(Visits(c, callers)) == []
    decreases c, 0
  {
    var inside := callers + [c.isReal];
    NothingUnshadowed(c.body, inside);
    NothingUnshadowed(c.converter, inside);
    UnshadowedCall(c, callers);
  }

  /** The positions of the calls without a real caller. */
  function Free(vs: seq<Visit>): (ks: seq<nat>)
    ensures forall i, j :: 0 <= i < j < |ks| ==> ks[i] < ks[j]
    ensures forall j :: 0 <= j < |ks| ==> ks[j] < |vs|
    ensures forall k: nat :: k in ks <==> k < |vs| && true !in vs[k].callers
  {
    if vs == [] then [] else
      var last := |vs| - 1;
      var ks := Free(vs[..last]);
      assert forall k :: 0 <= k < last ==> vs[..last][k] == vs[k];
      if true in vs[last].callers then ks else ks + [last]
  }

  /** The converters that run are those of the calls without a real caller: each once, in order, and on
      the arguments of its own call. */
  lemma {:induction false} UnshadowedAreFree(vs: seq<Visit>)
    ensures |Unshadowed(vs)| == |Free(vs)|
    ensures forall j :: 0 <= j < |Free(vs)| ==> Unshadowed(vs)[j] == vs[Free(vs)[j]].args
    decreases |vs|
  {
    if vs == [] {
    } else {
      var last := |vs| - 1;
      UnshadowedAreFree(vs[..last]);
      var ks := Free(vs[..last]);
      forall j | 0 <= j < |Free(vs)| ensures Unshadowed(vs)[j] == vs[Free(vs)[j]].args {
        if j < |ks| {
          assert Unshadowed(vs)[j] == Unshadowed(vs[..last])[j] && vs[..last][ks[j]] == vs[ks[j]];
        }
      }
    }
  }
}
