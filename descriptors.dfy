/**
 * Structural descriptors of classes and methods, and the table that the binding-based
 * descriptor resolver builds from the compilation units it is given.
 *
 * A descriptor is what `TypeBindingClassTypeDescriptor` derives from a type binding; that
 * derivation is not part of this model, so a compilation unit here directly lists the
 * descriptors of its top-level types, in declaration order.
 */
module Descriptors {
  import opened Wrappers

  /** A class type signature. `text` is its `toString()` form, which keys the class area;
      `className` is the internal name, such as `java/lang/Object`. Two signatures are the
      same table key exactly when they are equal values. */
  datatype ClassSignature = ClassSignature(className: string, text: string)

  /** A method signature qualified by its declaring class; `methodSignature` is the
      `toString()` form of the unqualified signature. */
  datatype QualifiedMethodSignature = QualifiedMethodSignature(declaringClass: ClassSignature, methodSignature: string)

  datatype FieldDescriptor = FieldDescriptor(name: string, fieldType: string, isStatic: bool)

  /** `signature` is the `toString()` form of the method's signature. */
  datatype MethodDescriptor = MethodDescriptor(signature: string, isStatic: bool)

  /** A class descriptor: its fields and methods, each table keyed as the descriptor keys it. */
  datatype ClassDescriptor = ClassDescriptor(
    signature: ClassSignature,
    fields: map<string, FieldDescriptor>,
    methods: map<string, MethodDescriptor>
  )

  /** A compilation unit: the descriptors of its top-level types, in declaration order. */
  datatype CompilationUnit = CompilationUnit(types: seq<ClassDescriptor>)

  /** The top-level types of all units, unit by unit, in the order the resolver visits them. */
  function AllTypes(units: seq<CompilationUnit>): seq<ClassDescriptor>
  {
    if units == [] then [] else AllTypes(units[..|units| - 1]) + units[|units| - 1].types
  }

  lemma AllTypesStep(units: seq<CompilationUnit>, i: nat)
    requires i < |units|
    ensures AllTypes(units[..i + 1]) == AllTypes(units[..i]) + units[i].types
  {
    assert units[..i + 1][..i] == units[..i];
  }

  /** Each type of each unit is among the types the resolver visits. */
  lemma {:induction false} AllTypesContains(units: seq<CompilationUnit>, u: CompilationUnit, d: ClassDescriptor)
    requires u in units && d in u.types
    ensures d in AllTypes(units)
  {
    var last := units[|units| - 1];
    if u != last {
      var init := units[..|units| - 1];
      assert u in init;
      AllTypesContains(init, u, d);
    }
  }

  /** The table after `classes[desc.signature] = desc` for each descriptor in turn. */
  function Register(ds: seq<ClassDescriptor>): map<ClassSignature, ClassDescriptor>
  {
    if ds == [] then map[]
    else Register(ds[..|ds| - 1])[ds[|ds| - 1].signature := ds[|ds| - 1]]
  }

  lemma RegisterStep(ds: seq<ClassDescriptor>, d: ClassDescriptor)
    ensures Register(ds + [d]) == Register(ds)[d.signature := d]
  {
    assert (ds + [d])[..|ds|] == ds;
  }

  /** The table of a resolver built from `units`. */
  function Registered(units: seq<CompilationUnit>): map<ClassSignature, ClassDescriptor>
  {
    Register(AllTypes(units))
  }

  /** The table is keyed by exactly the signatures of the registered descriptors. */
  lemma {:induction false} RegisterKeys(ds: seq<ClassDescriptor>, sig: ClassSignature)
    ensures sig in Register(ds) <==> exists k :: 0 <= k < |ds| && ds[k].signature == sig
  {
    if ds != [] {
      var init := ds[..|ds| - 1];
      RegisterKeys(init, sig);
      if sig in Register(init) {
        var k :| 0 <= k < |init| && init[k].signature == sig;
        assert ds[k] == init[k];
      }
      if exists k :: 0 <= k < |ds| && ds[k].signature == sig {
        var k :| 0 <= k < |ds| && ds[k].signature == sig;
        if k < |init| {
          assert init[k] == ds[k];
        }
      }
    }
  }

  /** When several descriptors share a signature, the one registered last is kept. */
  lemma {:induction false} RegisterLastWins(ds: seq<ClassDescriptor>, k: nat)
    requires k < |ds|
    requires forall j :: k < j < |ds| ==> ds[j].signature != ds[k].signature
    ensures ds[k].signature in Register(ds) && Register(ds)[ds[k].signature] == ds[k]
  {
    if k < |ds| - 1 {
      var init := ds[..|ds| - 1];
      forall j | k < j < |init|
        ensures init[j].signature != init[k].signature
      {
        assert init[j] == ds[j];
      }
      RegisterLastWins(init, k);
    }
  }

  /** Every top-level type of every unit is registered under its own signature. */
  lemma EveryTypeRegistered(units: seq<CompilationUnit>, u: CompilationUnit, d: ClassDescriptor)
    requires u in units && d in u.types
    ensures d.signature in Registered(units)
  {
    var ds := AllTypes(units);
    AllTypesContains(units, u, d);
    var k :| 0 <= k < |ds| && ds[k] == d;
    RegisterKeys(ds, d.signature);
  }

  /** The loop over the compilation units of the `init` block. */
  method RegisterUnits(units: seq<CompilationUnit>) returns (table: map<ClassSignature, ClassDescriptor>)
    ensures table == Registered(units)
  {
    table := map[];
    for i := 0 to |units|
      invariant table == Register(AllTypes(units[..i]))
    {
      table := RegisterTypes(table, AllTypes(units[..i]), units[i].types);
      AllTypesStep(units, i);
    }
    assert units[..|units|] == units;
  }

  /** The loop over the top-level types of one unit: `table`, the table of the types
      `done`, becomes the table of `done` followed by `types`. */
  method RegisterTypes(table: map<ClassSignature, ClassDescriptor>, ghost done: seq<ClassDescriptor>, types: seq<ClassDescriptor>)
    returns (next: map<ClassSignature, ClassDescriptor>)
    requires table == Register(done)
    ensures next == Register(done + types)
  {
    next := table;
    assert done + types[..0] == done;
    for j := 0 to |types|
      invariant next == Register(done + types[..j])
    {
      RegisterStep(done + types[..j], types[j]);
      assert done + types[..j + 1] == done + types[..j] + [types[j]];
      next := next[types[j].signature := types[j]];
    }
    assert types[..|types|] == types;
  }

  /** `BindingDescriptorResolver`: the signature-to-descriptor table built once from the
      compilation units, and the class and method lookups on it. */
  class BindingDescriptorResolver {
    var classes: map<ClassSignature, ClassDescriptor>

    /** The `init` block (BindingDescriptorResolver.kt:14-23): every top-level type of every
        unit, in order, is stored under its descriptor's signature. */
    constructor(units: seq<CompilationUnit>)
      ensures classes == Registered(units)
    {
      var table := RegisterUnits(units);
      classes := table;
    }

    /** The class lookup: the registered descriptor, or none for an absent signature. */
    function TryResolveClass(sig: ClassSignature): (r: Option<ClassDescriptor>)
      reads this
      ensures r.Some? <==> sig in classes
      ensures r.Some? ==> r.value == classes[sig]
    {
      if sig in classes then Some(classes[sig]) else None
    }

    /** The method lookup: none when the declaring class is unregistered, otherwise that
        class's method entry at the unqualified signature's text, if any. */
    function TryResolveMethod(sig: QualifiedMethodSignature): (r: Option<MethodDescriptor>)
      reads this
      ensures sig.declaringClass !in classes ==> r.None?
      ensures sig.declaringClass in classes ==>
        (r.Some? <==> sig.methodSignature in classes[sig.declaringClass].methods)
      ensures r.Some? ==> r.value == classes[sig.declaringClass].methods[sig.methodSignature]
    {
      match TryResolveClass(sig.declaringClass)
      case None => None
      case Some(cls) =>
        if sig.methodSignature in cls.methods then Some(cls.methods[sig.methodSignature]) else None
    }

    /** Partner of the lookup: a resolver built from `units` resolves every top-level type
        of those units to a descriptor with that signature, and to the last such type. */
    lemma ResolvesRegistered(units: seq<CompilationUnit>, k: nat)
      requires classes == Registered(units)
      requires k < |AllTypes(units)|
      requires forall j :: k < j < |AllTypes(units)| ==> AllTypes(units)[j].signature != AllTypes(units)[k].signature
      ensures TryResolveClass(AllTypes(units)[k].signature) == Some(AllTypes(units)[k])
    {
      RegisterLastWins(AllTypes(units), k);
    }
  }
}
