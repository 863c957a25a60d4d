/**
 * Symbolic stack values: a typed placeholder with a context-unique integer id, and the
 * label under which it is shown in traces.
 *
 * A `SymbolicValue` is a datatype, so two of them are equal exactly when their ids and
 * their types are equal, as for the Kotlin data class.
 */
module StackValues {

  /** Kotlin's `Int`. */
  newtype Int32 = x: int | -0x8000_0000 <= x < 0x8000_0000

  /** A stack type, represented by its enum constant's `name`; the set of constants is not
      part of this model. */
  datatype StackType = StackType(name: string)

  datatype SymbolicValue = SymbolicValue(symbol: Int32, stackType: StackType)

  /** The decimal digit character of `d`. */
  function Digit(d: nat): char
    requires d < 10
  {
    "0123456789"[d]
  }

  predicate IsDigit(c: char) { '0' <= c <= '9' }

  /** The decimal text of a natural number, without leading zeros. */
  function NatToString(n: nat): (s: string)
    ensures |s| >= 1 && forall i :: 0 <= i < |s| ==> IsDigit(s[i])
    ensures n < 10 <==> |s| == 1
  {
    if n < 10 then [Digit(n)] else NatToString(n / 10) + [Digit(n % 10)]
  }

  /** Kotlin's string template of an `Int`: a `-` sign for negative numbers. */
  function IntToString(i: int): string
  {
    if i < 0 then "-" + NatToString(-i) else NatToString(i)
  }

  /** `label()` (SymbolicValue.kt:11-13): `#`, the id in decimal, a space, the type name. */
  function Label(v: SymbolicValue): (s: string)
    ensures |s| >= 3 && s[0] == '#'
  {
    "#" + IntToString(v.symbol as int) + " " + v.stackType.name
  }

  lemma DigitInjective(a: nat, b: nat)
    requires a < 10 && b < 10 && Digit(a) == Digit(b)
    ensures a == b
  {
  }

  /** Distinct numbers have distinct decimal texts. */
  lemma {:induction false} NatToStringInjective(a: nat, b: nat)
    requires NatToString(a) == NatToString(b)
    ensures a == b
  {
    var s := NatToString(a);
    if a >= 10 && b >= 10 {
      assert s[..|s| - 1] == NatToString(a / 10) && s[|s| - 1] == Digit(a % 10);
      assert s[..|s| - 1] == NatToString(b / 10) && s[|s| - 1] == Digit(b % 10);
      NatToStringInjective(a / 10, b / 10);
      DigitInjective(a % 10, b % 10);
    } else {
      DigitInjective(a, b);
    }
  }

  lemma IntToStringInjective(a: int, b: int)
    requires IntToString(a) == IntToString(b)
    ensures a == b
  {
    var s := IntToString(a);
    // The text starts with `-` exactly for a negative number.
    assert (a < 0) == (s[0] == '-') && (b < 0) == (IntToString(b)[0] == '-');
    if a < 0 && b < 0 {
      assert s[1..] == NatToString(-a) && s[1..] == NatToString(-b);
      NatToStringInjective(-a, -b);
    } else if a >= 0 && b >= 0 {
      NatToStringInjective(a, b);
    }
  }

  /** For a fixed type name, the label determines the id. */
  lemma LabelInjective(v: SymbolicValue, w: SymbolicValue)
    requires v.stackType.name == w.stackType.name
    requires Label(v) == Label(w)
    ensures v.symbol == w.symbol
  {
    var tail := " " + v.stackType.name;
    var a := IntToString(v.symbol as int);
    var b := IntToString(w.symbol as int);
    assert Label(v) == "#" + a + tail && Label(w) == "#" + b + tail;
    assert |a| == |b|;
    assert a == Label(v)[1..|a| + 1];
    assert b == Label(w)[1..|b| + 1];
    IntToStringInjective(v.symbol as int, w.symbol as int);
  }
}
