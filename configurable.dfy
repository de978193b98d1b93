/** Typed parameter access of a configurable component: parameters are set
    and read as strings together with a type name ("Bool", "Integer",
    "Float" or "String"), and the type name selects which of the component's
    typed setters or getters is called. The setters and getters themselves
    are abstract in the source; here they are function parameters. */
module Configurable {
  import opened Common

  /** The four parameter types: C++ `bool`, `int`, `double`, `std::string`. */
  datatype DataType = BoolType | IntType | DoubleType | StringType

  /** A value as held by a component. */
  datatype Value = FlagV(b: bool) | IntegerV(i: int) | FloatV(d: real) | StringV(s: string)

  /** `getDataTypeString<T>()`. */
  function DataTypeString(t: DataType): (r: string)
    ensures |r| > 0
  {
    match t
    case BoolType => "Bool"
    case IntType => "Integer"
    case DoubleType => "Float"
    case StringType => "String"
  }

  /** `isDataType<T>(s)`. */
  predicate IsDataType(t: DataType, s: string) {
    DataTypeString(t) == s
  }

  /** The type selected by the if-chain of `setParameter`/`getParameter`:
      the first of bool, int, double, string whose name equals `s`. */
  function TypeNamed(s: string): (r: Option<DataType>)
    ensures forall t :: r == Some(t) <==> IsDataType(t, s)
    ensures r.None? <==> s !in {"Bool", "Integer", "Float", "String"}
  {
    if IsDataType(BoolType, s) then Some(BoolType)
    else if IsDataType(IntType, s) then Some(IntType)
    else if IsDataType(DoubleType, s) then Some(DoubleType)
    else if IsDataType(StringType, s) then Some(StringType)
    else None
  }

  /** The type names are pairwise different, so each name selects exactly
      one type. */
  lemma {:induction false} DataTypeStringInjective(t: DataType, u: DataType)
    ensures DataTypeString(t) == DataTypeString(u) <==> t == u
  {
    if t != u {
      assert DataTypeString(t)[0] != DataTypeString(u)[0] || |DataTypeString(t)| != |DataTypeString(u)|;
    }
  }

  /** Round trip between a type and its name. */
  lemma {:induction false} TypeNamedOfName(t: DataType)
    ensures TypeNamed(DataTypeString(t)) == Some(t)
  {
    DataTypeStringInjective(t, BoolType);
    DataTypeStringInjective(t, IntType);
    DataTypeStringInjective(t, DoubleType);
    DataTypeStringInjective(t, StringType);
  }

  /** The setter call made by `setParameter`: the typed setter of `kind`
      receives `key` and the string `raw` converted to that type. */
  datatype SetCall = SetCall(kind: DataType, key: string, raw: string)

  datatype SetOutcome = SetOutcome(ok: bool, called: Option<SetCall>)

  /** `setParameter(key, val, type)`; `setter` stands for the component's
      typed setters and their results. */
  function SetParameter(key: string, val: string, typeName: string,
                        setter: SetCall -> bool): (r: SetOutcome)
    ensures r.called.Some? <==> typeName in {"Bool", "Integer", "Float", "String"}
    ensures r.called.Some? ==>
              IsDataType(r.called.value.kind, typeName)
              && r.called.value.key == key && r.called.value.raw == val
              && r.ok == setter(r.called.value)
    ensures r.called.None? ==> !r.ok
  {
    match TypeNamed(typeName)
    case None => SetOutcome(false, None)
    case Some(t) =>
      var call := SetCall(t, key, val);
      SetOutcome(setter(call), Some(call))
  }

  /** The text form of a value read back: strings as they are, other types
      through `show` (the source's `convertToString`). */
  function AsText(v: Value, show: Value -> string): string {
    if v.StringV? then v.s else show(v)
  }

  /** `getAsString<T>(name, val)`: reads the typed value and converts it;
      when the read fails it returns false and `val` keeps its value. */
  function GetAsString(t: DataType, key: string, val: string,
                       getter: (DataType, string) -> Option<Value>,
                       show: Value -> string): (r: (bool, string))
    ensures r.0 <==> getter(t, key).Some?
    ensures !r.0 ==> r.1 == val
    ensures r.0 ==> r.1 == show(getter(t, key).value)
  {
    match getter(t, key)
    case None => (false, val)
    case Some(v) => (true, show(v))
  }

  /** `getParameter(key, val, type)`: the getter selected by the type name;
      bool, int and double go through `getAsString`, string is read
      directly. An unknown type name gives false and leaves `val` alone. */
  function GetParameter(key: string, val: string, typeName: string,
                        getter: (DataType, string) -> Option<Value>,
                        show: Value -> string): (r: (bool, string))
    ensures TypeNamed(typeName).None? ==> r == (false, val)
    ensures TypeNamed(typeName).Some? ==>
      var t := TypeNamed(typeName).value;
      (r.0 <==> getter(t, key).Some?)
      && (!r.0 ==> r.1 == val)
      && (r.0 && t == StringType ==> r.1 == AsText(getter(t, key).value, show))
      && (r.0 && t != StringType ==> r.1 == show(getter(t, key).value))
  {
    match TypeNamed(typeName)
    case None => (false, val)
    case Some(t) =>
      if t == StringType then
        match getter(t, key)
        case None => (false, val)
        case Some(v) => (true, AsText(v, show))
      else GetAsString(t, key, val, getter, show)
  }

  /** Setting and getting dispatch alike: a type name either reaches the
      typed setter and getter of the same type, or neither. */
  lemma {:induction false} SetAndGetDispatchAlike(key: string, val: string, typeName: string,
                                                 setter: SetCall -> bool,
                                                 getter: (DataType, string) -> Option<Value>,
                                                 show: Value -> string)
    ensures SetParameter(key, val, typeName, setter).called.None?
      ==> !GetParameter(key, val, typeName, getter, show).0
    ensures SetParameter(key, val, typeName, setter).called.Some? ==>
      var t := SetParameter(key, val, typeName, setter).called.value.kind;
      GetParameter(key, val, typeName, getter, show).0 == getter(t, key).Some?
  {
    var s := SetParameter(key, val, typeName, setter);
    if s.called.Some? {
      assert TypeNamed(typeName) == Some(s.called.value.kind);
    }
  }
}
