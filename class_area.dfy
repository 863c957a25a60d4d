/**
 * The class area of an execution context: the table of loaded classes keyed by the text of
 * their signatures, the loading of one class from its descriptor, the cast decision, and
 * the synthetic frame that loads a set of classes.
 *
 * The heap's symbolic initial values of static fields and the compiled method bodies are
 * not part of this model: a static field is recorded by name and type, and a method table
 * maps a signature to the descriptor its body is compiled from.
 */
module ClassAreas {
  import opened Wrappers
  import opened Descriptors

  /** A type signature as the cast decision distinguishes it: a class type, an array type
      (by its `toString()` text) or any other type, such as a primitive. */
  datatype TypeSig =
    | OfClass(cls: ClassSignature)
    | OfArray(arrayText: string)
    | OtherType(otherText: string)
  {
    /** The `toString()` form. */
    function Text(): string
    {
      match this
      case OfClass(c) => c.text
      case OfArray(t) => t
      case OtherType(t) => t
    }
  }

  /** A static field slot. */
  datatype Field = Field(name: string, fieldType: string)

  /** A loaded class: its descriptor and its static-field, static-method and
      instance-method tables. */
  datatype ClassType = ClassType(
    descriptor: ClassDescriptor,
    staticFields: map<string, Field>,
    staticMethods: map<string, MethodDescriptor>,
    instanceMethods: map<string, MethodDescriptor>
  )

  /** What aborts a lookup or a cast decision: `classes[sig]!!` on an absent key, and the
      final `TODO()`. */
  datatype AreaFailure = NotLoaded(signature: string) | Todo

  /** The two synthetic instructions a class-loader frame holds. */
  datatype SyntheticInstr = ValidateClassDependencies(validatedClass: ClassSignature) | AllocateClassType(allocatedClass: ClassSignature)

  /** A synthetic frame: its name and its instruction stack (top = last). Its operand
      stack starts empty and is not modelled. */
  datatype SyntheticFrame = SyntheticFrame(name: string, instructions: seq<SyntheticInstr>)

  /** `sigs.joinToString(",")` over the signatures' texts. */
  function JoinTexts(sigs: seq<ClassSignature>): (r: string)
    ensures sigs == [] ==> r == ""
    ensures sigs != [] ==> |sigs[0].text| <= |r| && r[..|sigs[0].text|] == sigs[0].text
    ensures |sigs| > 1 ==> |sigs[0].text| < |r| && r[|sigs[0].text|] == ','
  {
    if sigs == [] then ""
    else if |sigs| == 1 then sigs[0].text
    else sigs[0].text + "," + JoinTexts(sigs[1..])
  }

  /** The pieces of a text between its commas, in order. */
  function SplitCommas(s: string): (parts: seq<string>)
    ensures |parts| >= 1
  {
    if s == [] then [""]
    else if s[0] == ',' then [""] + SplitCommas(s[1..])
    else
      var rest := SplitCommas(s[1..]);
      [[s[0]] + rest[0]] + rest[1..]
  }

  /** A comma-free prefix joins the first piece of what follows it. */
  lemma {:induction false} SplitCommaFree(t: string, rest: string)
    requires ',' !in t
    ensures SplitCommas(t + rest) == [t + SplitCommas(rest)[0]] + SplitCommas(rest)[1..]
    decreases |t|
  {
    if t != [] {
      assert (t + rest)[0] == t[0] && (t + rest)[1..] == t[1..] + rest;
      SplitCommaFree(t[1..], rest);
      var parts, tail := SplitCommas(rest), SplitCommas(t[1..] + rest);
      assert t[0] != ',' by { assert t[0] in t; }
      assert tail[0] == t[1..] + parts[0] && tail[1..] == parts[1..];
      assert [t[0]] + tail[0] == t + parts[0];
    } else {
      var parts := SplitCommas(rest);
      assert t + rest == rest && t + parts[0] == parts[0];
      assert [parts[0]] + parts[1..] == parts;
    }
  }

  /** The loader frame's name lists the signatures recoverably: splitting the joined texts
      at their commas gives back each signature's text, when none contains a comma. */
  lemma {:induction false} SplitJoinTexts(sigs: seq<ClassSignature>)
    requires sigs != []
    requires forall i :: 0 <= i < |sigs| ==> ',' !in sigs[i].text
    ensures |SplitCommas(JoinTexts(sigs))| == |sigs|
    ensures forall i :: 0 <= i < |sigs| ==> SplitCommas(JoinTexts(sigs))[i] == sigs[i].text
  {
    var t := sigs[0].text;
    if |sigs| == 1 {
      SplitCommaFree(t, "");
      assert t + "" == t;
    } else {
      var tail := JoinTexts(sigs[1..]);
      SplitJoinTexts(sigs[1..]);
      assert ("," + tail)[0] == ',' && ("," + tail)[1..] == tail;
      SplitCommaFree(t, "," + tail);
      assert t + "," + tail == t + ("," + tail);
    }
  }

  /** The static-field table of a class: every static field, under its name. */
  predicate StaticFieldsOf(fields: map<string, FieldDescriptor>, table: map<string, Field>)
  {
    && table.Keys == (set k | k in fields && fields[k].isStatic :: fields[k].name)
    && forall n :: n in table ==>
         table[n].name == n && FieldDescriptor(n, table[n].fieldType, true) in fields.Values
  }

  /** A method table of a class: every method whose static-ness is `wantStatic`, under the
      text of its signature. */
  predicate MethodsOf(methods: map<string, MethodDescriptor>, wantStatic: bool, table: map<string, MethodDescriptor>)
  {
    && table.Keys == (set k | k in methods && methods[k].isStatic == wantStatic :: methods[k].signature)
    && forall s :: s in table ==>
         table[s] in methods.Values && table[s].isStatic == wantStatic && table[s].signature == s
  }

  /** The tables `allocateClassType` builds for `cls` (ClassArea.kt:45-60). */
  predicate BuiltFrom(cls: ClassDescriptor, c: ClassType)
  {
    && c.descriptor == cls
    && StaticFieldsOf(cls.fields, c.staticFields)
    && MethodsOf(cls.methods, true, c.staticMethods)
    && MethodsOf(cls.methods, false, c.instanceMethods)
  }

  /** The static-field table (ClassArea.kt:45-48): the static fields, each under its name. */
  method StaticFieldTable(fields: map<string, FieldDescriptor>) returns (table: map<string, Field>)
    ensures StaticFieldsOf(fields, table)
  {
    table := map[];
    var rest := fields.Keys;
    while rest != {}
      invariant rest <= fields.Keys
      invariant table.Keys == (set k | k in fields.Keys - rest && fields[k].isStatic :: fields[k].name)
      invariant forall n :: n in table ==>
                  table[n].name == n && FieldDescriptor(n, table[n].fieldType, true) in fields.Values
      decreases rest
    {
      var k :| k in rest;
      var f := fields[k];
      if f.isStatic {
        table := table[f.name := Field(f.name, f.fieldType)];
      }
      assert (set k' | k' in fields.Keys - (rest - {k}) && fields[k'].isStatic :: fields[k'].name)
          == (set k' | k' in fields.Keys - rest && fields[k'].isStatic :: fields[k'].name)
             + (if f.isStatic then {f.name} else {});
      rest := rest - {k};
    }
  }

  /** A method table (ClassArea.kt:50-58): the methods of the given static-ness, each under
      the text of its signature. */
  method MethodTable(methods: map<string, MethodDescriptor>, wantStatic: bool) returns (table: map<string, MethodDescriptor>)
    ensures MethodsOf(methods, wantStatic, table)
  {
    table := map[];
    var rest := methods.Keys;
    while rest != {}
      invariant rest <= methods.Keys
      invariant table.Keys == (set k | k in methods.Keys - rest && methods[k].isStatic == wantStatic :: methods[k].signature)
      invariant forall s :: s in table ==>
                  table[s] in methods.Values && table[s].isStatic == wantStatic && table[s].signature == s
      decreases rest
    {
      var k :| k in rest;
      var m := methods[k];
      if m.isStatic == wantStatic {
        table := table[m.signature := m];
      }
      assert (set k' | k' in methods.Keys - (rest - {k}) && methods[k'].isStatic == wantStatic :: methods[k'].signature)
          == (set k' | k' in methods.Keys - rest && methods[k'].isStatic == wantStatic :: methods[k'].signature)
             + (if m.isStatic == wantStatic then {m.signature} else {});
      rest := rest - {k};
    }
  }

  /** Every method of a descriptor lands in exactly the table its static-ness selects. */
  lemma MethodTablesSplit(cls: ClassDescriptor, c: ClassType, k: string)
    requires BuiltFrom(cls, c) && k in cls.methods
    ensures var m := cls.methods[k];
      if m.isStatic then m.signature in c.staticMethods else m.signature in c.instanceMethods
  {
    var m := cls.methods[k];
    if m.isStatic {
      assert m.signature in (set k' | k' in cls.methods && cls.methods[k'].isStatic == true :: cls.methods[k'].signature);
    } else {
      assert m.signature in (set k' | k' in cls.methods && cls.methods[k'].isStatic == false :: cls.methods[k'].signature);
    }
  }

  /** `ClassArea`: the loaded classes, keyed by the text of their signatures. */
  class ClassArea {
    var classes: map<string, ClassType>

    constructor(initial: map<string, ClassType>)
      ensures classes == initial
    {
      classes := initial;
    }

    /** `isClassLoaded` (ClassArea.kt:18-19); the `ClassTypeSignature` overload passes the
        signature's text. */
    predicate IsClassLoaded(sig: string)
      reads this
      ensures IsClassLoaded(sig) <==> GetClass(sig).Success?
    {
      sig in classes
    }

    /** `getClass` (ClassArea.kt:21-26): an unloaded signature aborts the lookup, which
        never yields a class. */
    function GetClass(lookupType: string): (r: Result<ClassType, AreaFailure>)
      reads this
      ensures r.Success? <==> lookupType in classes
      ensures r.Success? ==> r.value == classes[lookupType]
      ensures r.Failure? ==> r.error == NotLoaded(lookupType)
    {
      if lookupType in classes then Success(classes[lookupType]) else Failure(NotLoaded(lookupType))
    }

    /** `castWillSucceed` (ClassArea.kt:64-89). The assignability of two loaded classes is
        the `ClassType.isAssignableTo` relation, which is not part of this model and is
        given as `assignable`. */
    function CastWillSucceed(from: TypeSig, to: TypeSig, assignable: (ClassType, ClassType) -> bool): (r: Result<bool, AreaFailure>)
      reads this
      ensures from.Text() == to.Text() ==> r == Success(true)
      ensures from.Text() != to.Text() ==>
        && (from.OfClass? && to.OfClass? ==>
              (r.Success? <==> IsClassLoaded(from.cls.text) && IsClassLoaded(to.cls.text))
              && (r.Success? ==> r.value == assignable(classes[from.cls.text], classes[to.cls.text])))
        && (from.OfClass? && to.OfArray? ==> r == Success(false))
        && (from.OfArray? && to.OfClass? ==> r == Success(to.cls.className == "java/lang/Object"))
        && (from.OfArray? && to.OfArray? ==> r == Success(to.arrayText == "[Ljava/lang/Object"))
        && (from.OtherType? || to.OtherType? ==> r == Failure(Todo))
    {
      if from.Text() == to.Text() then Success(true)
      else if from.OfClass? && to.OfClass? then
        match GetClass(from.cls.text)
        case Failure(e) => Failure(e)
        case Success(fromCls) =>
          match GetClass(to.cls.text)
          case Failure(e) => Failure(e)
          case Success(toCls) => Success(assignable(fromCls, toCls))
      else if from.OfClass? && to.OfArray? then Success(false)
      else if from.OfArray? && to.OfClass? then Success(to.cls.className == "java/lang/Object")
      else if from.OfArray? && to.OfArray? then Success(to.Text() == "[Ljava/lang/Object")
      else Failure(Todo)
    }

    /** `buildClassLoaderFrame` (ClassArea.kt:28-39): one dependency validation per
        signature, then one allocation per signature on top of them, so that every
        allocation is popped, last signature first, before any validation. */
    method BuildClassLoaderFrame(sigs: seq<ClassSignature>) returns (frame: SyntheticFrame)
      requires forall i, j :: 0 <= i < j < |sigs| ==> sigs[i] != sigs[j]
      ensures frame.name == "LOADER " + JoinTexts(sigs)
      ensures |frame.instructions| == 2 * |sigs|
      ensures forall i :: 0 <= i < |sigs| ==>
                frame.instructions[i] == ValidateClassDependencies(sigs[i])
                && frame.instructions[|sigs| + i] == SyntheticInstr.AllocateClassType(sigs[i])
    {
      var instructions: seq<SyntheticInstr> := [];
      for i := 0 to |sigs|
        invariant |instructions| == i
        invariant forall j :: 0 <= j < i ==> instructions[j] == ValidateClassDependencies(sigs[j])
      {
        instructions := instructions + [ValidateClassDependencies(sigs[i])];
      }
      for i := 0 to |sigs|
        invariant |instructions| == |sigs| + i
        invariant forall j :: 0 <= j < |sigs| ==> instructions[j] == ValidateClassDependencies(sigs[j])
        invariant forall j :: 0 <= j < i ==> instructions[|sigs| + j] == SyntheticInstr.AllocateClassType(sigs[j])
      {
        instructions := instructions + [SyntheticInstr.AllocateClassType(sigs[i])];
      }
      frame := SyntheticFrame("LOADER " + JoinTexts(sigs), instructions);
    }

    /** `allocateClassType` (ClassArea.kt:41-62): a loaded signature is left alone;
        otherwise the class built from the descriptor is stored under the signature's text
        and no other entry changes. */
    method AllocateClassType(cls: ClassDescriptor)
      modifies this
      ensures cls.signature.text in old(classes) ==> classes == old(classes)
      ensures cls.signature.text !in old(classes) ==>
        && cls.signature.text in classes
        && classes == old(classes)[cls.signature.text := classes[cls.signature.text]]
        && BuiltFrom(cls, classes[cls.signature.text])
    {
      if IsClassLoaded(cls.signature.text) {
        return;
      }
      var staticFields := StaticFieldTable(cls.fields);
      var staticMethods := MethodTable(cls.methods, true);
      var instanceMethods := MethodTable(cls.methods, false);
      classes := classes[cls.signature.text := ClassType(cls, staticFields, staticMethods, instanceMethods)];
    }
  }
}
