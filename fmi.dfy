/**
  Types of the "FMI for Co-Simulation 1.0" interface that the driver uses:
  the ordered status code returned by every model call, the base type of a
  scalar variable in the model's catalog, and the C conversions the driver
  applies to values it passes across the interface.
 */
module Fmi {

  /** fmiStatus, in the order the interface declares it; the driver compares
      statuses with `>` (fmiFlag > fmiWarning), so the order matters. */
  datatype Status = OK | Warning | Discard | Error | Fatal | Pending {
    function Rank(): (r: nat)
      ensures r <= 5
      ensures r == 0 <==> this == OK
    {
      match this
      case OK => 0
      case Warning => 1
      case Discard => 2
      case Error => 3
      case Fatal => 4
      case Pending => 5
    }

    /** `this > fmiWarning` in C. */
    predicate WorseThanWarning() {
      Rank() > Warning.Rank()
    }
  }

  lemma WorseThanWarningCases(s: Status)
    ensures s.WorseThanWarning() <==> s !in {OK, Warning}
  {
  }

  /** The base type of a scalar variable, as the catalog parser reports it;
      Other stands for any element kind the driver's switch does not name. */
  datatype VarType = Real | Integer | Enumeration | Boolean | String | Other

  /** One catalog entry: value reference, name and base type. */
  datatype ScalarVariable = ScalarVariable(vr: nat, name: string, typ: VarType)

  /** The code TwinGetVariableType returns for a type. */
  function TypeCode(t: VarType): (code: int)
    ensures 0 <= code <= 5
    ensures code == 0 <==> t == Other
  {
    match t
    case Real => 1
    case Integer => 2
    case Enumeration => 3
    case Boolean => 4
    case String => 5
    case Other => 0
  }

  /** Reading a code back: the partner of TypeCode. */
  function TypeOfCode(code: int): (t: VarType)
  {
    if code == 1 then Real
    else if code == 2 then Integer
    else if code == 3 then Enumeration
    else if code == 4 then Boolean
    else if code == 5 then String
    else Other
  }

  lemma TypeCodeRoundTrip(t: VarType)
    ensures TypeOfCode(TypeCode(t)) == t
  {
  }

  lemma TypeCodeInjective(t: VarType, u: VarType)
    requires TypeCode(t) == TypeCode(u)
    ensures t == u
  {
    TypeCodeRoundTrip(t);
    TypeCodeRoundTrip(u);
  }

  /** C's `(int)x` on a double: truncation toward zero. */
  function TruncateToInt(x: real): (r: int)
    ensures 0.0 <= x ==> 0 <= r && r as real <= x < r as real + 1.0
    ensures x < 0.0 ==> r <= 0 && r as real - 1.0 < x <= r as real
  {
    if 0.0 <= x then x.Floor else -((-x).Floor)
  }
}
