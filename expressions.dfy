/**
 * The expression emitter: `quote_serialize_value`, `quote_deserialize`,
 * `to_json` and `from_json`. Each format is routed to a primitive runtime
 * call, to the named type's own method, or to a shared `TraitHelpers` routine
 * named by the format's mangled signature.
 */
module Expressions {
  import opened Text
  import opened Formats
  import opened TypeMapper

  /**
   * `common::mangle_type` lives outside this file; the model carries it as a
   * function value and assumes nothing about it (in particular not injectivity).
   */
  type Mangler = Format -> string

  /** The suffix of the runtime primitive for a primitive format. */
  function PrimitiveKind(f: Format): string
    requires IsPrimitive(f)
  {
    match f.p
    case Unit => "unit"
    case Bool => "bool"
    case I8 => "i8"
    case I16 => "i16"
    case I32 => "i32"
    case I64 => "i64"
    case I128 => "i128"
    case U8 => "u8"
    case U16 => "u16"
    case U32 => "u32"
    case U64 => "u64"
    case U128 => "u128"
    case F32 => "f32"
    case F64 => "f64"
    case Char => "char"
    case Str => "str"
    case Bytes => "bytes"
  }

  /** The primitive format a runtime-call suffix stands for, if any (an independent table). */
  function PrimitiveOfKind(k: string): seq<Format> {
    if k == "unit" then [Prim(Unit)]
    else if k == "bool" then [Prim(Bool)]
    else if k == "i8" then [Prim(I8)]
    else if k == "i16" then [Prim(I16)]
    else if k == "i32" then [Prim(I32)]
    else if k == "i64" then [Prim(I64)]
    else if k == "i128" then [Prim(I128)]
    else if k == "u8" then [Prim(U8)]
    else if k == "u16" then [Prim(U16)]
    else if k == "u32" then [Prim(U32)]
    else if k == "u64" then [Prim(U64)]
    else if k == "u128" then [Prim(U128)]
    else if k == "f32" then [Prim(F32)]
    else if k == "f64" then [Prim(F64)]
    else if k == "char" then [Prim(Char)]
    else if k == "str" then [Prim(Str)]
    else if k == "bytes" then [Prim(Bytes)]
    else []
  }

  /** The two tables are inverse: the suffix of a primitive names that primitive and no other. */
  lemma PrimitiveKindRoundTrip(f: Format)
    requires IsPrimitive(f)
    ensures PrimitiveOfKind(PrimitiveKind(f)) == [f]
  {
  }

  /** Distinct primitives call distinct runtime methods: the routing is one-to-one. */
  lemma PrimitiveKindInjective(f: Format, g: Format)
    requires IsPrimitive(f) && IsPrimitive(g)
    requires PrimitiveKind(f) == PrimitiveKind(g)
    ensures f == g
  {
    PrimitiveKindRoundTrip(f);
    PrimitiveKindRoundTrip(g);
  }

  /** Where the code for a format is routed. */
  datatype Route =
    | PrimitiveCall(kind: string)   // serializer.serialize_<kind> / deserializer.deserialize_<kind>
    | OwnMethod                      // the named type's serialize / deserialize
    | SharedHelper                   // TraitHelpers.serialize_<mangled> / deserialize_<mangled>

  function RouteOf(f: Format): Route {
    if IsPrimitive(f) then PrimitiveCall(PrimitiveKind(f))
    else if f.TypeName? then OwnMethod
    else SharedHelper
  }

  /** On resolved formats the helper route is taken exactly by the `needs_helper` shapes. */
  lemma HelperRouteIffNeedsHelper(f: Format)
    requires Resolved(f)
    ensures RouteOf(f) == SharedHelper <==> NeedsHelper(f)
  {
  }

  /** `quote_serialize_value`: the statement writing `value` of format `f`. */
  function SerializeValue(mangle: Mangler, value: string, f: Format): string {
    if IsPrimitive(f) then "serializer.serialize_" + PrimitiveKind(f) + "(" + value + ");"
    else if f.TypeName? then value + ".serialize(serializer);"
    else "TraitHelpers.serialize_" + mangle(f) + "(" + value + ", serializer);"
  }

  /** `quote_deserialize`: the expression reading a value of format `f`. */
  function DeserializeExpr(mangle: Mangler, f: Format): string {
    if IsPrimitive(f) then "deserializer.deserialize_" + PrimitiveKind(f) + "()"
    else if f.TypeName? then f.name + ".deserialize(deserializer)"
    else "TraitHelpers.deserialize_" + mangle(f) + "(deserializer)"
  }

  /**
   * A write statement of `value` and a read expression travel the same route
   * for format `f`: the runtime primitives of one kind, the named type's own
   * pair of methods, or the `TraitHelpers` pair named by one mangled
   * signature.
   */
  predicate SameRoute(mangle: Mangler, value: string, f: Format, write: string, read: string) {
    match RouteOf(f)
    case PrimitiveCall(k) =>
      && write == "serializer.serialize_" + k + "(" + value + ");"
      && read == "deserializer.deserialize_" + k + "()"
    case OwnMethod =>
      && f.TypeName?
      && write == value + ".serialize(serializer);"
      && read == f.name + ".deserialize(deserializer)"
    case SharedHelper =>
      && write == "TraitHelpers.serialize_" + mangle(f) + "(" + value + ", serializer);"
      && read == "TraitHelpers.deserialize_" + mangle(f) + "(deserializer)"
  }

  /** Writer and reader of every format take the route `RouteOf` picks, the same both ways. */
  lemma SerializeDeserializeAgree(mangle: Mangler, value: string, f: Format)
    ensures SameRoute(mangle, value, f, SerializeValue(mangle, value, f), DeserializeExpr(mangle, f))
  {
  }

  /** No runtime primitive name contains an opening parenthesis. */
  lemma KindHasNoParen(f: Format)
    requires IsPrimitive(f)
    ensures '(' !in PrimitiveKind(f)
  {
  }

  /**
   * The statement written for a primitive determines the primitive: two
   * different primitives never produce the same `serialize_<kind>` call.
   */
  lemma PrimitiveSerializeInjective(mangle: Mangler, value: string, f: Format, g: Format)
    requires IsPrimitive(f) && IsPrimitive(g)
    requires SerializeValue(mangle, value, f) == SerializeValue(mangle, value, g)
    ensures f == g
  {
    KindHasNoParen(f);
    KindHasNoParen(g);
    var tail := "(" + value + ");";
    assert SerializeValue(mangle, value, f) == "serializer.serialize_" + PrimitiveKind(f) + tail;
    assert SerializeValue(mangle, value, g) == "serializer.serialize_" + PrimitiveKind(g) + tail;
    DelimitedAgree("serializer.serialize_", PrimitiveKind(f), tail, PrimitiveKind(g), tail);
    PrimitiveKindInjective(f, g);
  }

  /** Likewise the expression read for a primitive determines the primitive. */
  lemma PrimitiveDeserializeInjective(mangle: Mangler, f: Format, g: Format)
    requires IsPrimitive(f) && IsPrimitive(g)
    requires DeserializeExpr(mangle, f) == DeserializeExpr(mangle, g)
    ensures f == g
  {
    KindHasNoParen(f);
    KindHasNoParen(g);
    DelimitedAgree("deserializer.deserialize_", PrimitiveKind(f), "()", PrimitiveKind(g), "()");
    PrimitiveKindInjective(f, g);
  }

  // ---------------------------------------------------------------------------
  // JSON glue.

  /** `s` occurs in `t` as a contiguous piece. */
  predicate Contains(t: string, s: string) {
    exists i :: 0 <= i <= |t| - |s| && OccursAt(t, s, i)
  }

  predicate OccursAt(t: string, s: string, i: nat)
    requires i + |s| <= |t|
  {
    t[i..i + |s|] == s
  }

  lemma ContainsSelf(s: string)
    ensures Contains(s, s)
  {
    assert OccursAt(s, s, 0);
  }

  lemma ContainsAfter(a: string, t: string, s: string)
    requires Contains(t, s)
    ensures Contains(a + t, s)
  {
    var i :| 0 <= i <= |t| - |s| && OccursAt(t, s, i);
    assert (a + t)[|a| + i..|a| + i + |s|] == t[i..i + |s|];
    assert OccursAt(a + t, s, |a| + i);
  }

  lemma ContainsBefore(t: string, c: string, s: string)
    requires Contains(t, s)
    ensures Contains(t + c, s)
  {
    var i :| 0 <= i <= |t| - |s| && OccursAt(t, s, i);
    assert (t + c)[i..i + |s|] == t[i..i + |s|];
    assert OccursAt(t + c, s, i);
  }

  /** `to_json`: the map entry a field contributes to the JSON object. */
  function ToJson(field: Named<Format>): string {
    var n := field.name;
    var q := if field.value.Seq? then "'" else "\"";
    q + n + q + " : " + (
      match field.value
      case TypeName(_) => n + ".toJson() "
      case Prim(p) => if p == Bytes then n + ".toJson() " else n + " "
      case Variable => n + ".toJson() "
      case Map(_, _) => n + ".toJson() "
      case Option(_) => n + ".isEmpty?null:" + n + ".value "
      case Seq(t) => if t.TypeName? then n + ".map((f) => f.toJson()).toList()" else n
      case Tuple(_) => n + " "
      case TupleArray(_, _) => n + " ")
  }

  /** `from_json`: the initializer that sets a field from the decoded JSON object. */
  function FromJson(field: Named<Format>): string
    requires Resolved(field.value)
  {
    var n := field.name;
    var key := "json['" + n + "']";
    n + " = " + (
      match field.value
      case Prim(p) => if p == Bytes then "Bytes.fromJson(" + key + ")" else key
      case Variable => "Bytes.fromJson(" + key + ")"
      case Map(_, _) => "Bytes.fromJson(" + key + ")"
      case TypeName(t) => t + ".fromJson(" + key + ")"
      case Option(_) => key
      case Seq(t) =>
        if t.TypeName? then "List<" + t.name + ">.from(" + key + ".map((f) => " + t.name + ".fromJson(f)).toList())"
        else key
      case Tuple(_) => n
      case TupleArray(content, _) => "List<" + QuoteType(content) + ">.from(" + key + ")")
  }

  /**
   * `to_json` puts the field under its own name as the key of its entry,
   * quoted with `'` for a sequence and with `"` otherwise.
   */
  lemma ToJsonKeyIsName(field: Named<Format>)
    ensures var r, q := ToJson(field), if field.value.Seq? then "'" else "\"";
      |r| >= |field.name| + 5 && r[..|field.name| + 5] == q + field.name + q + " : "
  {
  }

  /** `from_json` always initializes the field itself: its text starts with `name = `. */
  lemma FromJsonAssignsField(field: Named<Format>)
    requires Resolved(field.value)
    ensures var r := FromJson(field);
      |r| >= |field.name| + 3 && r[..|field.name| + 3] == field.name + " = "
  {
  }

  /**
   * The JSON glue is symmetric on keys: `to_json` writes the field under its
   * own name and `from_json` reads that same key back, for every format except
   * a tuple, whose initializer reads nothing from the JSON object.
   */
  lemma JsonKeysAgree(field: Named<Format>)
    requires Resolved(field.value)
    requires !field.value.Tuple?
    ensures Contains(FromJson(field), "json['" + field.name + "']")
  {
    var n, key, f := field.name, "json['" + field.name + "']", field.value;
    ContainsSelf(key);
    var init: string;
    if f.TypeName? {
      ContainsAfter(f.name + ".fromJson(", key, key);
      ContainsBefore(f.name + ".fromJson(" + key, ")", key);
      init := f.name + ".fromJson(" + key + ")";
    } else if f == Prim(Bytes) || f.Map? {
      ContainsAfter("Bytes.fromJson(", key, key);
      ContainsBefore("Bytes.fromJson(" + key, ")", key);
      init := "Bytes.fromJson(" + key + ")";
    } else if f.Seq? && f.elem.TypeName? {
      var t := f.elem.name;
      ContainsAfter("List<" + t + ">.from(", key, key);
      ContainsBefore("List<" + t + ">.from(" + key, ".map((f) => ", key);
      ContainsBefore("List<" + t + ">.from(" + key + ".map((f) => ", t, key);
      ContainsBefore("List<" + t + ">.from(" + key + ".map((f) => " + t, ".fromJson(f)).toList())", key);
      init := "List<" + t + ">.from(" + key + ".map((f) => " + t + ".fromJson(f)).toList())";
    } else if f.TupleArray? {
      ContainsAfter("List<" + QuoteType(f.content) + ">.from(", key, key);
      ContainsBefore("List<" + QuoteType(f.content) + ">.from(" + key, ")", key);
      init := "List<" + QuoteType(f.content) + ">.from(" + key + ")";
    } else {
      init := key;
    }
    assert FromJson(field) == n + " = " + init;
    ContainsAfter(n + " = ", init, key);
  }
}
