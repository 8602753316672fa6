/**
 * What a container class is generated from: the generator configuration, the
 * two ways a class is emitted (a top-level container, or one variant of an
 * enum, extending the enum's abstract class), and the field lists that
 * `output_container` and `output_variant` derive from the schema.
 */
module Containers {
  import opened Text
  import opened Formats
  import opened Expressions

  /**
   * The part of `CodeGeneratorConfig` the emitter reads. The encodings are
   * carried by their names; `heck::to_camel_case` and `common::mangle_type`
   * are external and enter as function values about which nothing is assumed.
   */
  datatype Config = Config(
    serialization: bool,
    encodings: seq<string>,
    mangle: Mangler,
    camelCase: string -> string)

  /**
   * `variant_base` / `variant_index` of `output_struct_or_variant_container`:
   * both absent for a top-level container, both present for a variant.
   */
  datatype ClassKind =
    | TopLevel
    | VariantOf(base: string, index: nat)

  /** The fields of a tuple: `field0`, `field1`, … in position order. */
  function TupleFields(fs: seq<Format>): (fields: seq<Named<Format>>)
    ensures |fields| == |fs|
    ensures forall i :: 0 <= i < |fs| ==> fields[i] == Named("field" + NatToString(i), fs[i])
  {
    seq(|fs|, i requires 0 <= i < |fs| => Named("field" + NatToString(i), fs[i]))
  }

  /** The field list `output_container` builds; an enum takes another path. */
  function ContainerFields(c: ContainerFormat): seq<Named<Format>>
    requires !c.Enum?
  {
    match c
    case UnitStruct => []
    case NewTypeStruct(f) => [Named("value", f)]
    case TupleStruct(fs) => TupleFields(fs)
    case Struct(fields) => fields
  }

  /** `redefine`: a newtype struct is its single field for JSON purposes. */
  predicate Redefines(c: ContainerFormat) {
    c.NewTypeStruct?
  }

  /** The field list `output_variant` builds; a `Variable` variant panics. */
  function VariantFields(v: VariantFormat): seq<Named<Format>>
    requires !v.VariableVariant?
  {
    match v
    case UnitVariant => []
    case NewTypeVariant(f) => [Named("value", f)]
    case TupleVariant(fs) => TupleFields(fs)
    case StructVariant(fields) => fields
  }

  function FieldNames(fields: seq<Named<Format>>): (names: seq<string>)
    ensures |names| == |fields|
    ensures forall i :: 0 <= i < |fields| ==> names[i] == fields[i].name
  {
    seq(|fields|, i requires 0 <= i < |fields| => fields[i].name)
  }

  predicate DistinctNames(fields: seq<Named<Format>>) {
    forall i, j :: 0 <= i < j < |fields| ==> fields[i].name != fields[j].name
  }

  /** The positional names of a tuple never collide. */
  lemma TupleFieldNamesDistinct(fs: seq<Format>)
    ensures DistinctNames(TupleFields(fs))
  {
    var fields := TupleFields(fs);
    forall i, j | 0 <= i < j < |fields| ensures fields[i].name != fields[j].name {
      if fields[i].name == fields[j].name {
        var a, b := NatToString(i), NatToString(j);
        assert "field" + a + "" == "field" + b + "";
        assert "field" + a == "field" + b;
        assert a == ("field" + a)[5..] == ("field" + b)[5..] == b;
        NatToStringInjective(i, j);
      }
    }
  }

  /**
   * Field derivation for a container: a unit struct has no fields, a newtype
   * struct the single field `value` and is the only redefining shape, a tuple
   * struct positional fields, and a struct its own fields unchanged. Field
   * names never collide unless the struct's own names already do.
   */
  lemma ContainerFieldsDerived(c: ContainerFormat)
    requires !c.Enum?
    ensures c.UnitStruct? ==> ContainerFields(c) == []
    ensures c.NewTypeStruct? ==> ContainerFields(c) == [Named("value", c.format)] && Redefines(c)
    ensures c.TupleStruct? ==>
      && |ContainerFields(c)| == |c.formats| && !Redefines(c)
      && forall i :: 0 <= i < |c.formats| ==> ContainerFields(c)[i] == Named("field" + NatToString(i), c.formats[i])
    ensures c.Struct? ==> ContainerFields(c) == c.fields && !Redefines(c)
    ensures !c.Struct? || DistinctNames(c.fields) ==> DistinctNames(ContainerFields(c))
  {
    if c.TupleStruct? {
      TupleFieldNamesDistinct(c.formats);
    }
  }

  /**
   * Field derivation for a variant: the same shapes as for containers, with a
   * newtype variant also giving the single field `value` (but never
   * redefining, which `output_variant` fixes to false).
   */
  lemma VariantFieldsDerived(v: VariantFormat)
    requires !v.VariableVariant?
    ensures v.UnitVariant? ==> VariantFields(v) == []
    ensures v.NewTypeVariant? ==> VariantFields(v) == [Named("value", v.format)]
    ensures v.TupleVariant? ==>
      && |VariantFields(v)| == |v.formats|
      && forall i :: 0 <= i < |v.formats| ==> VariantFields(v)[i] == Named("field" + NatToString(i), v.formats[i])
    ensures v.StructVariant? ==> VariantFields(v) == v.fields
    ensures !v.StructVariant? || DistinctNames(v.fields) ==> DistinctNames(VariantFields(v))
  {
    if v.TupleVariant? {
      TupleFieldNamesDistinct(v.formats);
    }
  }

  /** The derived fields of a resolved container or variant are resolved. */
  lemma ContainerFieldsResolved(c: ContainerFormat)
    requires !c.Enum? && ContainerResolved(c)
    ensures FieldsResolved(ContainerFields(c))
  {
  }

  lemma VariantFieldsResolved(v: VariantFormat)
    requires VariantResolved(v)
    ensures FieldsResolved(VariantFields(v))
  {
  }
}
