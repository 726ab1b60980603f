/** Types, values and topic-name matching of the local store. */
module LocalStorageTypes {
  import opened Wrappers

  datatype NtType =
    | Boolean | Double | String | Raw | BooleanArray | DoubleArray | StringArray | Rpc
    | Integer | Float | IntegerArray | FloatArray

  /** A value; the empty value is the missing one. */
  datatype Value = Value(ty: NtType, time: int, serverTime: int, data: string)

  predicate IsNumeric(t: NtType) {
    t in {Integer, Float, Double}
  }

  predicate IsNumericArray(t: NtType) {
    t in {IntegerArray, FloatArray, DoubleArray}
  }

  predicate IsNumericCompatible(a: NtType, b: NtType) {
    (IsNumeric(a) && IsNumeric(b)) || (IsNumericArray(a) && IsNumericArray(b))
  }

  /** Conversion changes the type and the data, not the times. */
  function ConvertNumericValue(v: Value, ty: NtType): Value {
    v.(ty := ty)
  }

  /** Equal as values: the times do not count, and a remote procedure call equals nothing. */
  predicate Equal(a: Value, b: Value) {
    a.ty == b.ty && a.ty != Rpc && a.data == b.data
  }

  function TypeToString(t: NtType): string {
    match t
    case Boolean => "boolean"
    case Double => "double"
    case String => "string"
    case BooleanArray => "boolean[]"
    case DoubleArray => "double[]"
    case StringArray => "string[]"
    case Rpc => "rpc"
    case Integer => "int"
    case Float => "float"
    case IntegerArray => "int[]"
    case FloatArray => "float"
    case Raw => "raw"
  }

  function StringToType(s: string): NtType {
    if s == "boolean" then Boolean
    else if s == "double" then Double
    else if s == "string" || s == "json" then String
    else if s == "boolean[]" then BooleanArray
    else if s == "double[]" then DoubleArray
    else if s == "string[]" then StringArray
    else if s == "rpc" then Rpc
    else if s == "int" then Integer
    else if s == "float" then Float
    else if s == "int[]" then IntegerArray
    else if s == "float[]" then FloatArray
    else Raw
  }

  /** The name of a type stands for that type again, except that float arrays are named like floats. */
  lemma TypeComesBackIff(t: NtType)
    ensures StringToType(TypeToString(t)) == t <==> t != FloatArray
    ensures StringToType(TypeToString(FloatArray)) == Float
  {
  }

  /** A name that stands for a type other than raw data is that type's own, "json" or "float[]". */
  lemma NamedTypes(s: string)
    ensures StringToType("json") == String && StringToType("float[]") == FloatArray
    ensures StringToType(s) != Raw ==> s == TypeToString(StringToType(s)) || s == "json" || s == "float[]"
  {
  }

  // Topic names

  predicate IsSpecial(name: string) {
    name != "" && name[0] == '$'
  }

  predicate PrefixMatch(name: string, prefix: string, special: bool) {
    (!special || prefix != "") && prefix <= name
  }

  /** One of the prefixes matches; the empty prefix does not match special topics. */
  predicate Matches(prefixes: seq<string>, name: string) {
    exists i :: 0 <= i < |prefixes| && PrefixMatch(name, prefixes[i], IsSpecial(name))
  }

  /** A topic is matched by a prefix of its name; one whose name begins with a dollar sign only by a non-empty one. */
  lemma MatchesIff(prefixes: seq<string>, name: string)
    ensures Matches(prefixes, name)
       <==> exists p :: p in prefixes && p <= name && (p == "" ==> !("$" <= name))
  {
    assert "$" <= name <==> name != "" && name[0] == '$';
    if i :| 0 <= i < |prefixes| && PrefixMatch(name, prefixes[i], IsSpecial(name)) {
      assert prefixes[i] in prefixes;
    }
    if p :| p in prefixes && p <= name && (p == "" ==> !("$" <= name)) {
      var i :| 0 <= i < |prefixes| && prefixes[i] == p;
      assert PrefixMatch(name, prefixes[i], IsSpecial(name));
    }
  }

  method MatchesAny(prefixes: seq<string>, name: string, special: bool) returns (r: bool)
    requires special == IsSpecial(name)
    ensures r == Matches(prefixes, name)
  {
    for i := 0 to |prefixes|
      invariant forall j :: 0 <= j < i ==> !PrefixMatch(name, prefixes[j], special)
    {
      if PrefixMatch(name, prefixes[i], special) {
        return true;
      }
    }
    return false;
  }

  // The last value

  /** The latest to arrive among the values with the largest time is at `i`. */
  ghost predicate NewestAt(accepted: seq<Value>, i: int) {
    && 0 <= i < |accepted|
    && (forall j :: 0 <= j < |accepted| ==> accepted[j].time <= accepted[i].time)
    && (forall j :: i < j < |accepted| ==> accepted[j].time < accepted[i].time)
  }

  ghost predicate Newest(accepted: seq<Value>, last: Option<Value>) {
    if accepted == [] then last == None
    else last.Some? && exists i :: NewestAt(accepted, i) && last.value == accepted[i]
  }

  ghost predicate Timed(accepted: seq<Value>) {
    forall i :: 0 <= i < |accepted| ==> accepted[i].time >= 0
  }

  /** The last value after one more is accepted. */
  function Replaced(last: Option<Value>, v: Value): Option<Value> {
    if last.None? || last.value.time == 0 || v.time >= last.value.time then Some(v) else last
  }

  lemma NewestPush(accepted: seq<Value>, last: Option<Value>, v: Value)
    requires Newest(accepted, last) && Timed(accepted + [v])
    ensures Newest(accepted + [v], Replaced(last, v))
  {
    var all := accepted + [v];
    assert all[|accepted|] == v;
    assert forall j :: 0 <= j < |accepted| ==> all[j] == accepted[j];
    if accepted == [] {
      assert NewestAt(all, 0);
    } else {
      var i :| NewestAt(accepted, i) && last.value == accepted[i];
      if v.time >= last.value.time {
        assert NewestAt(all, |accepted|);
      } else {
        assert NewestAt(all, i);
      }
    }
  }

  /** As more values are accepted, the time of the last one never goes backwards. */
  lemma TimeForward(before: seq<Value>, last: Option<Value>, after: seq<Value>, last': Option<Value>)
    requires Newest(before, last) && Newest(after, last') && before <= after
    ensures last.Some? ==> last'.Some? && last.value.time <= last'.value.time
  {
    if last.Some? {
      var i :| NewestAt(before, i) && last.value == before[i];
      assert after[i] == before[i];
    }
  }

  /** One value makes the time go backwards iff it is negative and the last time is zero. */
  lemma BackwardsIff(last: Value, v: Value)
    ensures Replaced(Some(last), v).value.time < last.time <==> last.time == 0 && v.time < 0
  {
  }
}
