/**
 * `ValueComparator`: the structural equivalence of stack values and string values that
 * the graph comparator's element matching relies on. It decides "same shape", not value
 * identity: symbolic ids and heap values behind references are not looked at.
 *
 * Numbers are modelled as integers of any width; floating-point numbers are not part of
 * this model. A composite string value is a node of a concatenation tree whose `identity`
 * stands for its `System.identityHashCode`: two occurrences with the same identity are the
 * same shared subtree.
 */
module ValueComparator {
  import opened StackValues

  /** An operator of a computed value, represented by its enum constant's name. */
  datatype Operator = Operator(name: string)

  datatype ConcreteValue =
    | StackBoolean(boolValue: bool)
    | StackNumber(numberType: StackType, number: int)

  datatype StackValue =
    | StackNil
    | StackReference(id: int)
    | Symbolic(symbolic: SymbolicValue)
    | Concrete(concrete: ConcreteValue)
    | NotValue(notOperand: StackValue)
    | CastValue(castOperand: StackValue, castType: StackType)
    | BinaryOperationValue(operator: Operator, lhs: StackValue, rhs: StackValue)
  {
    /** The `ComputedValue` subclasses. */
    predicate IsComputed() { NotValue? || CastValue? || BinaryOperationValue? }
  }

  datatype StringValue =
    | ConcreteString(text: string)
    | SymbolicString(stringSymbol: int)
    | StackValueString(wrapped: StackValue)
    | CompositeString(left: StringValue, right: StringValue, identity: nat)

  /** The operands of the top-level `compare(Any, Any)`: a string value, a stack value, or
      any other object. */
  datatype Value = StringOperand(str: StringValue) | StackOperand(stack: StackValue) | OtherObject

  /** The kind of a stack value: values of different kinds are never equal. */
  function Kind(v: StackValue): nat
  {
    if v.StackNil? then 0
    else if v.StackReference? then 1
    else if v.Symbolic? then 2
    else if v.Concrete? then 3
    else if v.NotValue? then 4
    else if v.CastValue? then 5
    else 6
  }

  /** Kotlin's `Number.toInt()` on an integral number: the low 32 bits, as a signed value. */
  function Wrap32(n: int): (r: int)
    ensures -0x8000_0000 <= r < 0x8000_0000
    ensures (r - n) % 0x1_0000_0000 == 0
    ensures -0x8000_0000 <= n < 0x8000_0000 ==> r == n
  {
    (n + 0x8000_0000) % 0x1_0000_0000 - 0x8000_0000
  }

  // ---------------------------------------------------------------------------
  // Stack values (ValueComparator.kt:59-106)
  // ---------------------------------------------------------------------------

  /** `compare(ConcreteValue, ConcreteValue)` (ValueComparator.kt:91-106): booleans by
      value, a boolean against a number never; numbers by their `toDouble()` values or
      their `toInt()` values. */
  function CompareConcrete(l: ConcreteValue, r: ConcreteValue): (res: bool)
    ensures res ==> (l.StackBoolean? <==> r.StackBoolean?)
    ensures l.StackBoolean? && r.StackBoolean? ==> (res <==> l.boolValue == r.boolValue)
    ensures l.StackNumber? && r.StackNumber? && l.number == r.number ==> res
    ensures (&& l.StackNumber? && r.StackNumber?
             && -0x8000_0000 <= l.number < 0x8000_0000 && -0x8000_0000 <= r.number < 0x8000_0000)
            ==> (res <==> l.number == r.number)
  {
    if l.StackBoolean? && r.StackBoolean? then l.boolValue == r.boolValue
    else if l.StackBoolean? || r.StackBoolean? then false
    else l.number == r.number || Wrap32(l.number) == Wrap32(r.number)
  }

  /** `compare(StackValue, StackValue)` (ValueComparator.kt:59-74). */
  function CompareStack(l: StackValue, r: StackValue): (res: bool)
    decreases l, 1
    ensures res ==> Kind(l) == Kind(r)
  {
    if l.StackNil? && r.StackNil? then true
    else if l.StackReference? && r.StackReference? then l.id == r.id
    else if l.Symbolic? && r.Symbolic? then l.symbolic.stackType == r.symbolic.stackType
    else if l.IsComputed() && r.IsComputed() then CompareComputed(l, r)
    else if l.Concrete? && r.Concrete? then CompareConcrete(l.concrete, r.concrete)
    else false
  }

  /** `compare(ComputedValue, ComputedValue)` (ValueComparator.kt:76-89): `Not` and `Cast`
      compare their operands only; a binary operation needs the same operator and operands
      that match straight or swapped. */
  function CompareComputed(l: StackValue, r: StackValue): (res: bool)
    requires l.IsComputed() && r.IsComputed()
    decreases l, 0
    ensures res ==> Kind(l) == Kind(r)
  {
    if l.NotValue? && r.NotValue? then CompareStack(l.notOperand, r.notOperand)
    else if l.CastValue? && r.CastValue? then CompareStack(l.castOperand, r.castOperand)
    else if l.BinaryOperationValue? && r.BinaryOperationValue? then
      l.operator == r.operator &&
      ((CompareStack(l.lhs, r.lhs) && CompareStack(l.rhs, r.rhs)) ||
       (CompareStack(l.lhs, r.rhs) && CompareStack(l.rhs, r.lhs)))
    else false
  }

  lemma {:induction false} CompareStackSymmetric(l: StackValue, r: StackValue)
    decreases l
    ensures CompareStack(l, r) == CompareStack(r, l)
  {
    if l.NotValue? && r.NotValue? {
      CompareStackSymmetric(l.notOperand, r.notOperand);
    } else if l.CastValue? && r.CastValue? {
      CompareStackSymmetric(l.castOperand, r.castOperand);
    } else if l.BinaryOperationValue? && r.BinaryOperationValue? {
      CompareStackSymmetric(l.lhs, r.lhs);
      CompareStackSymmetric(l.rhs, r.rhs);
      CompareStackSymmetric(l.lhs, r.rhs);
      CompareStackSymmetric(l.rhs, r.lhs);
    }
  }

  lemma {:induction false} CompareStackReflexive(v: StackValue)
    ensures CompareStack(v, v)
  {
    if v.NotValue? {
      CompareStackReflexive(v.notOperand);
    } else if v.CastValue? {
      CompareStackReflexive(v.castOperand);
    } else if v.BinaryOperationValue? {
      CompareStackReflexive(v.lhs);
      CompareStackReflexive(v.rhs);
    }
  }

  /** A binary operation matches its operand-swapped form. */
  lemma BinaryCommutative(op: Operator, a: StackValue, b: StackValue)
    ensures CompareStack(BinaryOperationValue(op, a, b), BinaryOperationValue(op, b, a))
  {
    CompareStackReflexive(a);
    CompareStackReflexive(b);
  }

  /** Symbolic values match by type alone, and casts by operand alone. */
  lemma IdsAndCastTypesIgnored(a: SymbolicValue, b: SymbolicValue, x: StackValue, t: StackType, u: StackType)
    requires a.stackType == b.stackType
    ensures CompareStack(Symbolic(a), Symbolic(b))
    ensures CompareStack(CastValue(x, t), CastValue(x, u))
  {
    CompareStackReflexive(x);
  }

  /** Integral numbers in the 32-bit range match exactly when they are equal; wider ones
      also match when their low 32 bits agree. */
  lemma NumbersByValue(s: StackType, t: StackType, a: int, b: int)
    ensures -0x8000_0000 <= a < 0x8000_0000 && -0x8000_0000 <= b < 0x8000_0000 ==>
      (CompareConcrete(StackNumber(s, a), StackNumber(t, b)) <==> a == b)
    ensures CompareConcrete(StackNumber(s, a), StackNumber(t, a + 0x1_0000_0000))
  {
    assert Wrap32(a + 0x1_0000_0000) == Wrap32(a);
  }

  // ---------------------------------------------------------------------------
  // String values (ValueComparator.kt:14-57)
  // ---------------------------------------------------------------------------

  /** `collect` (ValueComparator.kt:14-27): appends the leaves left to right; a composite
      whose identity is already visited contributes nothing. */
  function Collect(s: StringValue, acc: seq<StringValue>, visited: set<nat>): (r: (seq<StringValue>, set<nat>))
    ensures acc <= r.0 && visited <= r.1
    ensures forall i :: |acc| <= i < |r.0| ==> !r.0[i].CompositeString?
  {
    if s.CompositeString? then
      if s.identity !in visited then
        var (afterLeft, seenLeft) := Collect(s.left, acc, visited);
        var (afterRight, seenRight) := Collect(s.right, afterLeft, seenLeft);
        (afterRight, seenRight + {s.identity})
      else (acc, visited)
    else (acc + [s], visited)
  }

  /** `collect(mutableListOf(), mutableSetOf())`. */
  function Flatten(s: StringValue): seq<StringValue>
  {
    Collect(s, [], {}).0
  }

  /** The leaves of a concatenation tree, left to right, counting shared subtrees as
      often as they occur. */
  function Leaves(s: StringValue): seq<StringValue>
  {
    if s.CompositeString? then Leaves(s.left) + Leaves(s.right) else [s]
  }

  /** The identities of the composite nodes of a tree. */
  function Identities(s: StringValue): set<nat>
  {
    if s.CompositeString? then {s.identity} + Identities(s.left) + Identities(s.right) else {}
  }

  /** A tree without shared subtrees: every composite node has its own identity. */
  predicate Unshared(s: StringValue)
  {
    s.CompositeString? ==>
      && Unshared(s.left) && Unshared(s.right)
      && s.identity !in Identities(s.left) + Identities(s.right)
      && Identities(s.left) !! Identities(s.right)
  }

  /** Without shared subtrees, collecting yields exactly the leaves. */
  lemma {:induction false} CollectUnshared(s: StringValue, acc: seq<StringValue>, visited: set<nat>)
    requires Unshared(s) && Identities(s) !! visited
    ensures Collect(s, acc, visited) == (acc + Leaves(s), visited + Identities(s))
  {
    if s.CompositeString? {
      assert s.identity in Identities(s) && s.identity !in visited;
      assert Identities(s.left) <= Identities(s) && Identities(s.right) <= Identities(s);
      CollectUnshared(s.left, acc, visited);
      var afterLeft, seenLeft := acc + Leaves(s.left), visited + Identities(s.left);
      assert Identities(s.right) !! seenLeft;
      CollectUnshared(s.right, afterLeft, seenLeft);
      assert Collect(s, acc, visited) == (afterLeft + Leaves(s.right), seenLeft + Identities(s.right) + {s.identity});
      assert afterLeft + Leaves(s.right) == acc + Leaves(s);
      assert seenLeft + Identities(s.right) + {s.identity} == visited + Identities(s);
    } else {
      assert visited + Identities(s) == visited;
    }
  }

  /** A subtree shared by both sides of a concatenation is flattened once. */
  lemma SharedSubtreeOnce(x: StringValue, id: nat)
    requires x.CompositeString? && Unshared(x) && id !in Identities(x)
    ensures Flatten(CompositeString(x, x, id)) == Leaves(x)
  {
    CollectUnshared(x, [], {});
    var (once, seen) := Collect(x, [], {});
    assert x.identity in seen;
    assert Collect(x, once, seen) == (once, seen);
    assert Collect(CompositeString(x, x, id), [], {}) == (once, seen + {id});
  }

  /** Collecting from an empty `visited` set always reaches the leftmost leaf. */
  lemma {:induction false} CollectStartsWithLeftmost(s: StringValue, acc: seq<StringValue>, visited: set<nat>)
    requires visited !! LeftSpine(s)
    ensures |Collect(s, acc, visited).0| > |acc| && Collect(s, acc, visited).0[|acc|] == Leftmost(s)
  {
    if s.CompositeString? {
      CollectStartsWithLeftmost(s.left, acc, visited);
      var (afterLeft, seenLeft) := Collect(s.left, acc, visited);
      assert Collect(s, acc, visited).0 == Collect(s.right, afterLeft, seenLeft).0;
    }
  }

  function Leftmost(s: StringValue): StringValue
  {
    if s.CompositeString? then Leftmost(s.left) else s
  }

  /** The identities on the path from a node to its leftmost leaf. */
  function LeftSpine(s: StringValue): set<nat>
  {
    if s.CompositeString? then {s.identity} + LeftSpine(s.left) else {}
  }

  /** The three leaf cases of `compare(StringValue, StringValue)` (ValueComparator.kt:29-37). */
  function CompareLeaf(l: StringValue, r: StringValue): (res: bool)
    ensures res ==> !l.CompositeString? && !r.CompositeString?
    ensures res ==> (l.ConcreteString? <==> r.ConcreteString?) && (l.SymbolicString? <==> r.SymbolicString?)
    ensures l.SymbolicString? && r.SymbolicString? ==> res
    ensures l.ConcreteString? && r.ConcreteString? ==> (res <==> l.text == r.text)
  {
    if l.ConcreteString? && r.ConcreteString? then l.text == r.text
    else if l.SymbolicString? && r.SymbolicString? then true
    else if l.StackValueString? && r.StackValueString? then CompareStack(l.wrapped, r.wrapped)
    else false
  }

  /** The loop over the flattenings as written (ValueComparator.kt:46-53): its body returns
      on the first iteration, and an empty flattening falls through to `return false`. */
  function FirstLeavesAsWritten(lc: seq<StringValue>, rc: seq<StringValue>): (res: bool)
    requires |lc| == |rc|
    ensures res ==> |lc| > 0 && CompareLeaf(lc[0], rc[0])
    ensures |lc| > 0 && PairwiseLeaves(lc, rc) ==> res
    ensures |lc| > 1 ==> res == FirstLeavesAsWritten(lc[..1], rc[..1])
    decreases |lc|
  {
    if |lc| == 0 then false
    else if !CompareLeaf(lc[0], rc[0]) then false
    else true
  }

  /** `compare(StringValue, StringValue)` as written (ValueComparator.kt:29-57). */
  function CompareStringsAsWritten(l: StringValue, r: StringValue): (res: bool)
    ensures res ==> (l.CompositeString? <==> r.CompositeString?)
    ensures l.CompositeString? && r.CompositeString? && res ==> |Flatten(l)| == |Flatten(r)|
  {
    if l.CompositeString? && r.CompositeString? then
      var lc := Flatten(l);
      var rc := Flatten(r);
      if |lc| != |rc| then false else FirstLeavesAsWritten(lc, rc)
    else CompareLeaf(l, r)
  }

  /** Two composites as written: equal-length flattenings, decided by their first leaves. */
  lemma AsWrittenDecidedByFirstLeaves(l: StringValue, r: StringValue)
    requires l.CompositeString? && r.CompositeString?
    ensures CompareStringsAsWritten(l, r) <==>
      |Flatten(l)| == |Flatten(r)| && CompareLeaf(Leftmost(l), Leftmost(r))
  {
    CollectStartsWithLeftmost(l, [], {});
    CollectStartsWithLeftmost(r, [], {});
  }

  /** The comparison as written is symmetric. */
  lemma AsWrittenSymmetric(l: StringValue, r: StringValue)
    ensures CompareStringsAsWritten(l, r) == CompareStringsAsWritten(r, l)
  {
    var lc, rc := Flatten(l), Flatten(r);
    if l.CompositeString? && r.CompositeString? && |lc| == |rc| && |lc| > 0 {
      CompareLeafSymmetric(lc[0], rc[0]);
    } else {
      CompareLeafSymmetric(l, r);
    }
  }

  /** The comparison as written is reflexive: a composite's flattening starts with its
      leftmost leaf, which matches itself. */
  lemma AsWrittenReflexive(s: StringValue)
    ensures CompareStringsAsWritten(s, s)
  {
    if s.CompositeString? {
      CollectStartsWithLeftmost(s, [], {});
      var first := Flatten(s)[0];
      assert !first.CompositeString?;
      if first.StackValueString? {
        CompareStackReflexive(first.wrapped);
      }
    } else if s.StackValueString? {
      CompareStackReflexive(s.wrapped);
    }
  }

  /** The composite comparison as written accepts concatenations that differ after their
      first leaf. */
  lemma AsWrittenIgnoresLaterLeaves()
    ensures var l := CompositeString(ConcreteString("a"), ConcreteString("b"), 1);
      var r := CompositeString(ConcreteString("a"), ConcreteString("c"), 2);
      CompareStringsAsWritten(l, r) && !CompareStrings(l, r)
  {
    var l := CompositeString(ConcreteString("a"), ConcreteString("b"), 1);
    var r := CompositeString(ConcreteString("a"), ConcreteString("c"), 2);
    CollectUnshared(l, [], {});
    CollectUnshared(r, [], {});
    assert Flatten(r)[1] == ConcreteString("c");
  }

  /** `compare(StringValue, StringValue)` as intended: symbolic strings always match,
      concrete ones by text, wrapped stack values by `CompareStack`, and composites when
      their flattenings have the same length and match leaf by leaf. */
  function CompareStrings(l: StringValue, r: StringValue): (res: bool)
    ensures l.CompositeString? && r.CompositeString? ==>
      (res <==> |Flatten(l)| == |Flatten(r)| &&
                forall i :: 0 <= i < |Flatten(l)| ==> CompareLeaf(Flatten(l)[i], Flatten(r)[i]))
  {
    if l.CompositeString? && r.CompositeString? then
      var lc := Flatten(l);
      var rc := Flatten(r);
      |lc| == |rc| && PairwiseLeaves(lc, rc)
    else CompareLeaf(l, r)
  }

  /** The `for` loop over the flattenings with the early `return true` removed. */
  function PairwiseLeaves(lc: seq<StringValue>, rc: seq<StringValue>): (res: bool)
    requires |lc| == |rc|
    ensures res <==> forall i :: 0 <= i < |lc| ==> CompareLeaf(lc[i], rc[i])
  {
    if lc == [] then true else CompareLeaf(lc[0], rc[0]) && PairwiseLeaves(lc[1..], rc[1..])
  }

  lemma CompareLeafSymmetric(l: StringValue, r: StringValue)
    ensures CompareLeaf(l, r) == CompareLeaf(r, l)
  {
    if l.StackValueString? && r.StackValueString? {
      CompareStackSymmetric(l.wrapped, r.wrapped);
    }
  }

  lemma CompareStringsSymmetric(l: StringValue, r: StringValue)
    ensures CompareStrings(l, r) == CompareStrings(r, l)
  {
    if l.CompositeString? && r.CompositeString? {
      var lc, rc := Flatten(l), Flatten(r);
      forall i | 0 <= i < |lc| && i < |rc|
        ensures CompareLeaf(lc[i], rc[i]) == CompareLeaf(rc[i], lc[i])
      {
        CompareLeafSymmetric(lc[i], rc[i]);
      }
    } else {
      CompareLeafSymmetric(l, r);
    }
  }

  /** Every string value matches itself: leaves are never composite. */
  lemma CompareStringsReflexive(s: StringValue)
    ensures CompareStrings(s, s)
  {
    if s.CompositeString? {
      var lc := Flatten(s);
      forall i | 0 <= i < |lc|
        ensures CompareLeaf(lc[i], lc[i])
      {
        if lc[i].StackValueString? {
          CompareStackReflexive(lc[i].wrapped);
        }
      }
    } else if s.StackValueString? {
      CompareStackReflexive(s.wrapped);
    }
  }

  /** The intended comparison is stricter than the one as written: whatever it accepts, the
      loop as written accepts too. `AsWrittenIgnoresLaterLeaves` shows the converse fails. */
  lemma IntendedImpliesAsWritten(l: StringValue, r: StringValue)
    ensures CompareStrings(l, r) ==> CompareStringsAsWritten(l, r)
  {
    if l.CompositeString? && r.CompositeString? {
      CollectStartsWithLeftmost(l, [], {});
    }
  }

  // ---------------------------------------------------------------------------
  // Any values (ValueComparator.kt:8-12)
  // ---------------------------------------------------------------------------

  /** `compare(Any, Any)`: strings with strings, by the string comparison as written,
      stack values with stack values, anything else never. */
  function Compare(l: Value, r: Value): (res: bool)
    ensures res ==> (l.StringOperand? && r.StringOperand?) || (l.StackOperand? && r.StackOperand?)
  {
    if l.StringOperand? && r.StringOperand? then CompareStringsAsWritten(l.str, r.str)
    else if l.StackOperand? && r.StackOperand? then CompareStack(l.stack, r.stack)
    else false
  }

  lemma CompareSymmetric(l: Value, r: Value)
    ensures Compare(l, r) == Compare(r, l)
  {
    if l.StringOperand? && r.StringOperand? {
      AsWrittenSymmetric(l.str, r.str);
    } else if l.StackOperand? && r.StackOperand? {
      CompareStackSymmetric(l.stack, r.stack);
    }
  }

  lemma CompareReflexive(v: Value)
    requires !v.OtherObject?
    ensures Compare(v, v)
  {
    if v.StringOperand? {
      AsWrittenReflexive(v.str);
    } else {
      CompareStackReflexive(v.stack);
    }
  }
}
