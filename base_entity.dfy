/** The type coercion of BaseEntity: how `fill` turns a loosely typed value
    into the type a setter's first parameter declares, and how it names the
    setter it looks for. The loop of `fill` itself runs over a concrete entity
    and lives with Task (module TaskEntity). */
module BaseEntity {
  import opened Php

  /** The name a setter parameter's declared type carries. `float` is not
      modelled (no decoded value here is a float); ClassKind is any class or
      interface type, which no decoded JSON value is an instance of. */
  datatype Kind = BoolKind | IntKind | StringKind | ArrayKind | ClassKind(name: string)

  /** A parameter's type as reflection reports it. */
  datatype ParamType =
    | Untyped                            // getType() is null
    | Composite                          // a union or intersection type
    | Named(kind: Kind, nullable: bool)  // a ReflectionNamedType

  /** The strings convertToBool reads as true, after lower-casing. */
  const TrueWords: seq<string> := ["true", "1", "yes", "on"]

  /** convertToBool: booleans unchanged, strings by a fixed word list,
      numbers by truthiness, anything else false. */
  function ConvertToBool(v: Value): bool
  {
    if v.Bool? then v.b
    else if v.Str? then Lower(v.s) in TrueWords
    else if v.Int? then v.i != 0
    else false
  }

  /** convertValue */
  function ConvertValue(v: Value, t: ParamType): Value
  {
    match t
    case Untyped => v
    case Composite => v
    case Named(kind, nullable) =>
      if nullable && v.Null? then Null
      else
        match kind
        case BoolKind => Bool(ConvertToBool(v))
        case IntKind => Int(IntCast(v))
        case StringKind => Str(StringCast(v))
        case ArrayKind => if v.Arr? then v else Arr([v])
        case ClassKind(_) => v
  }

  /** Whether a parameter of type t accepts v without juggling. */
  predicate Admits(t: ParamType, v: Value)
  {
    match t
    case Untyped => true
    case Composite => true
    case Named(kind, nullable) =>
      (nullable && v.Null?) ||
      match kind
      case BoolKind => v.Bool?
      case IntKind => v.Int?
      case StringKind => v.Str?
      case ArrayKind => v.Arr?
      case ClassKind(_) => false
  }

  /** The method `fill` looks for: 'set' . ucfirst($field). */
  function SetterName(field: string): string
  {
    "set" + Ucfirst(field)
  }

  // ---------------------------------------------------------------------
  // convertToBool

  /** A boolean comes back unchanged, so convertToBool is idempotent. */
  lemma ConvertToBoolIdempotent(v: Value)
    ensures ConvertToBool(Bool(ConvertToBool(v))) == ConvertToBool(v)
    ensures forall b :: ConvertToBool(Bool(b)) == b
  {
  }

  /** On values that are neither strings nor arrays, convertToBool agrees
      with PHP's (bool) cast; every array, even a non-empty one, is false. */
  lemma ConvertToBoolOfNonStrings(v: Value)
    ensures !v.Str? && !v.Arr? ==> ConvertToBool(v) == BoolCast(v)
    ensures v.Null? || v.Arr? ==> !ConvertToBool(v)
  {
  }

  /** The string test ignores ASCII case. */
  lemma ConvertToBoolIgnoresCase(s: string, t: string)
    requires Lower(s) == Lower(t)
    ensures ConvertToBool(Str(s)) == ConvertToBool(Str(t))
  {
  }

  lemma LowerOfDecimal(i: int)
    ensures Lower(DecimalString(i)) == DecimalString(i)
  {
    DecimalStringChars(i);
    var d := DecimalString(i);
    assert forall k :: 0 <= k < |d| ==> LowerChar(d[k]) == d[k];
  }

  /** The string branch comes before the numeric one: the decimal string of
      an integer is true only for 1, while the integer itself is true for
      every non-zero value. */
  lemma ConvertToBoolOfDecimal(i: int)
    ensures ConvertToBool(Str(DecimalString(i))) <==> i == 1
    ensures ConvertToBool(Int(i)) <==> i != 0
  {
    var d := DecimalString(i);
    LowerOfDecimal(i);
    DecimalStringChars(i);
    assert d[0] != 't' && d[0] != 'y' && d[0] != 'o';
    assert d in TrueWords <==> d == "1";
    if i < 0 {
      assert d[0] == '-';
    } else if i >= 10 {
      assert |d| >= 2;
    } else {
      assert d == [DigitChar(i)];
    }
  }

  /** Examples of the string rule: numeric strings other than "1" are false,
      and the word list ignores case. */
  lemma ConvertToBoolExamples()
    ensures !ConvertToBool(Str("2")) && !ConvertToBool(Str("0")) && !ConvertToBool(Str(""))
    ensures ConvertToBool(Str("TRUE")) && ConvertToBool(Str("Yes")) && ConvertToBool(Str("on"))
  {
    assert Lower("2") == "2";
    assert Lower("0") == "0";
    assert Lower("TRUE") == "true" by {
      assert Lower("TRUE")[0] == 't' && Lower("TRUE")[1] == 'r';
      assert Lower("TRUE")[2] == 'u' && Lower("TRUE")[3] == 'e';
    }
    assert Lower("Yes") == "yes" by {
      assert Lower("Yes")[0] == 'y';
    }
    assert Lower("on") == "on";
  }

  // ---------------------------------------------------------------------
  // convertValue

  /** A nullable type lets null through; a non-nullable bool turns null into
      false, a non-nullable string into "", a non-nullable int into 0 and a
      non-nullable array into [null]. */
  lemma ConvertNull(kind: Kind, nullable: bool)
    ensures nullable ==> ConvertValue(Null, Named(kind, nullable)) == Null
    ensures !nullable && kind == BoolKind ==> ConvertValue(Null, Named(kind, nullable)) == Bool(false)
    ensures !nullable && kind == StringKind ==> ConvertValue(Null, Named(kind, nullable)) == Str("")
    ensures !nullable && kind == IntKind ==> ConvertValue(Null, Named(kind, nullable)) == Int(0)
    ensures !nullable && kind == ArrayKind ==> ConvertValue(Null, Named(kind, nullable)) == Arr([Null])
  {
  }

  /** Without a named type, or for a class type, the value is passed on as
      it is. */
  lemma ConvertPassesThrough(v: Value, t: ParamType)
    requires t.Untyped? || t.Composite? || (t.Named? && t.kind.ClassKind?)
    ensures ConvertValue(v, t) == v
  {
  }

  /** For the scalar and array kinds, the converted value is always one the
      parameter admits, so the setter call cannot fail. */
  lemma ConvertedIsAdmitted(v: Value, kind: Kind, nullable: bool)
    requires !kind.ClassKind?
    ensures Admits(Named(kind, nullable), ConvertValue(v, Named(kind, nullable)))
  {
  }

  /** A value the parameter already admits is left unchanged, hence
      converting twice is converting once. */
  lemma ConvertKeepsAdmitted(v: Value, t: ParamType)
    requires Admits(t, v)
    ensures ConvertValue(v, t) == v
  {
  }

  lemma ConvertValueIdempotent(v: Value, t: ParamType)
    ensures ConvertValue(ConvertValue(v, t), t) == ConvertValue(v, t)
  {
    match t
    case Named(kind, nullable) =>
      if !kind.ClassKind? {
        ConvertedIsAdmitted(v, kind, nullable);
        ConvertKeepsAdmitted(ConvertValue(v, t), t);
      }
    case _ =>
  }

  /** An array type wraps every non-array in a one-element array. */
  lemma ConvertToArray(v: Value, nullable: bool)
    requires !(nullable && v.Null?)
    ensures v.Arr? ==> ConvertValue(v, Named(ArrayKind, nullable)) == v
    ensures !v.Arr? ==> ConvertValue(v, Named(ArrayKind, nullable)) == Arr([v])
  {
  }

  /** A string type stringifies, and an integer's string converts back to it
      through an int type. */
  lemma ConvertStringThenInt(i: int)
    ensures ConvertValue(Int(i), Named(StringKind, false)) == Str(DecimalString(i))
    ensures ConvertValue(ConvertValue(Int(i), Named(StringKind, false)), Named(IntKind, false)) == Int(i)
  {
    IntOfDecimalString(i);
  }

  // ---------------------------------------------------------------------
  // Setter names

  /** The lower-cased setter name of a field is "set" and the lower-cased
      field, so the lookup ignores the case of the field name. */
  lemma SetterNameLower(field: string)
    ensures Lower(SetterName(field)) == "set" + Lower(field)
  {
    LowerAppend("set", Ucfirst(field));
    LowerOfUcfirst(field);
    assert Lower("set") == "set";
  }
}
