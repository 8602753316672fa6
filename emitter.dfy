/**
 * `DartEmitter`: the object that writes the generated Dart text. It owns the
 * output written so far and the stack of classes being written; every
 * `output_*` routine appends its text, line by line, and leaves the stack as
 * it found it. Each routine is proved to write exactly the text its
 * specification function describes (`ClassOutput`, `EnumOutput`,
 * `TraitHelpersText`, …), about which the other modules prove what the text
 * promises.
 */
module Emitter {
  import opened Text
  import opened Formats
  import opened TypeMapper
  import opened Expressions
  import opened HelperCollection
  import opened HelperText
  import opened Containers
  import opened ClassText
  import opened EnumText

  class DartEmitter {
    /** The lines written so far. */
    var out: seq<string>
    /** The enclosing classes, innermost last. */
    var currentNamespace: seq<string>
    const config: Config

    constructor (config: Config, namespace: seq<string>)
      ensures this.config == config
      ensures out == [] && currentNamespace == namespace
    {
      this.config := config;
      out := [];
      currentNamespace := namespace;
    }

    /** `enter_class`: `name` becomes the innermost class; nothing is written. */
    method EnterClass(name: string)
      modifies this
      ensures currentNamespace == old(currentNamespace) + [name]
      ensures out == old(out)
    {
      currentNamespace := currentNamespace + [name];
    }

    /** `leave_class`: the innermost class is dropped; on an empty stack nothing changes. */
    method LeaveClass()
      modifies this
      ensures |old(currentNamespace)| > 0 ==> currentNamespace == old(currentNamespace)[..|old(currentNamespace)| - 1]
      ensures |old(currentNamespace)| == 0 ==> currentNamespace == []
      ensures out == old(out)
    {
      if |currentNamespace| > 0 {
        currentNamespace := currentNamespace[..|currentNamespace| - 1];
      }
    }

    /**
     * A run of `writeln!` calls: `lines` are written one after another. Every
     * per-field or per-variant loop of the generator writes its lines this way.
     */
    method WriteLines(lines: seq<string>)
      modifies this
      ensures out == AppendLines(old(out), lines, |lines|)
      ensures currentNamespace == old(currentNamespace)
    {
      var text := out;
      for i := 0 to |lines|
        invariant text == AppendLines(old(out), lines, i)
      {
        text := text + [lines[i]];
      }
      out := text;
    }

    // -------------------------------------------------------------------------
    // The shared helpers.

    /**
     * `output_serialization_helper`: the template of the format's shape; a
     * tuple's element writes are written one by one.
     */
    method OutputSerializationHelper(name: string, f: Format)
      requires NeedsHelper(f) && Resolved(f)
      modifies this
      ensures out == old(out) + SerializationHelperLines(config.mangle, name, f)
      ensures currentNamespace == old(currentNamespace)
    {
      if f.Tuple? {
        out := out + [SerializationHelperHeader(name, f)];
        ghost var o := out;
        var writes := TupleItemWrites(config.mangle, f.items, |f.items|);
        WriteLines(writes);
        out := out + ["}", ""];
        AppendLinesPrefix(o, writes, |writes|);
        assert writes[..|writes|] == writes;
      } else {
        out := out + SerializationHelperLines(config.mangle, name, f);
      }
    }

    /** `output_deserialization_helper`: the template of the format's shape. */
    method OutputDeserializationHelper(name: string, f: Format)
      requires NeedsHelper(f) && Resolved(f)
      modifies this
      ensures out == old(out) + DeserializationHelperLines(config.mangle, name, f)
      ensures currentNamespace == old(currentNamespace)
    {
      out := out + DeserializationHelperLines(config.mangle, name, f);
    }

    /**
     * `output_trait_helpers`: collect the helper table of the registry, then
     * write the `TraitHelpers` class with one helper pair per entry, in the
     * table's ascending order.
     */
    method OutputTraitHelpers(reg: Registry)
      requires RegistryResolved(reg)
      modifies this
      ensures forall i :: 0 <= i < |HelperTable(config.mangle, reg)| ==>
        NeedsHelper(HelperTable(config.mangle, reg)[i].1) && Resolved(HelperTable(config.mangle, reg)[i].1)
      ensures out == TraitHelpersText(old(out), config.mangle, HelperTable(config.mangle, reg))
      ensures currentNamespace == old(currentNamespace)
    {
      var subtypes := CollectHelpers(config.mangle, reg);
      TableEntriesResolved(config.mangle, reg);
      ghost var o := out + ["class TraitHelpers {"];
      ghost var pairs := HelperPairs(config.mangle, subtypes);
      out := out + ["class TraitHelpers {"];
      EnterClass("TraitHelpers");
      for i := 0 to |subtypes|
        invariant out == AppendBlocks(o, pairs, i)
        invariant currentNamespace == old(currentNamespace) + ["TraitHelpers"]
      {
        ghost var before := out;
        OutputSerializationHelper(subtypes[i].0, subtypes[i].1);
        OutputDeserializationHelper(subtypes[i].0, subtypes[i].1);
        AppendAssoc(before, SerializationHelperLines(config.mangle, subtypes[i].0, subtypes[i].1),
                    DeserializationHelperLines(config.mangle, subtypes[i].0, subtypes[i].1));
      }
      LeaveClass();
      out := out + ["}", ""];
    }

    // -------------------------------------------------------------------------
    // One class.

    /** `output_class_serialize_for_encoding`. */
    method OutputClassSerializeForEncoding(encoding: string)
      modifies this
      ensures out == old(out) + SerializeForEncoding(encoding, config.camelCase(encoding))
      ensures currentNamespace == old(currentNamespace)
    {
      out := out + SerializeForEncoding(encoding, config.camelCase(encoding));
    }

    /** `output_class_deserialize_for_encoding`. */
    method OutputClassDeserializeForEncoding(name: string, encoding: string)
      modifies this
      ensures out == old(out) + DeserializeForEncoding(name, encoding, config.camelCase(encoding))
      ensures currentNamespace == old(currentNamespace)
    {
      out := out + DeserializeForEncoding(name, encoding, config.camelCase(encoding));
    }

    /** The head of the class, its field declarations and its constructor. */
    method WriteDeclarations(kind: ClassKind, name: string, fields: seq<Named<Format>>)
      requires FieldsResolved(fields)
      modifies this
      ensures out == DeclarationText(old(out), ClassHead(kind, name), FieldDecls(fields), CtorHeader(name, fields),
                                     NonNullAsserts(fields), FieldAssigns(fields))
      ensures currentNamespace == old(currentNamespace) + [name]
    {
      out := out + ["", ClassHead(kind, name)];
      EnterClass(name);
      WriteLines(FieldDecls(fields));
      if |fields| > 0 {
        out := out + [""];
      }
      out := out + [CtorHeader(name, fields)];
      WriteLines(NonNullAsserts(fields));
      WriteLines(FieldAssigns(fields));
      out := out + ["}"];
    }

    /** `serialize`: a variant's index first, then each field's write. */
    method WriteSerialize(kind: ClassKind, fields: seq<Named<Format>>)
      modifies this
      ensures out == SerializeMethodText(old(out), kind, FieldWrites(config.mangle, fields))
      ensures currentNamespace == old(currentNamespace)
    {
      out := out + ["", SerializeSignature];
      if kind.VariantOf? {
        out := out + [VariantIndexWrite(kind.index)];
      }
      WriteLines(FieldWrites(config.mangle, fields));
      out := out + ["}"];
    }

    /** One serializing entry point per configured encoding. */
    method WriteSerializers()
      modifies this
      ensures out == AppendBlocks(old(out), SerializerBlocks(config), |config.encodings|)
      ensures currentNamespace == old(currentNamespace)
    {
      ghost var o := out;
      for i := 0 to |config.encodings|
        invariant out == AppendBlocks(o, SerializerBlocks(config), i)
        invariant currentNamespace == old(currentNamespace)
      {
        OutputClassSerializeForEncoding(config.encodings[i]);
      }
    }

    /** `deserialize` of a container, `load` of a variant: each field's read, then the constructor call. */
    method WriteDeserialize(kind: ClassKind, name: string, fields: seq<Named<Format>>)
      modifies this
      ensures out == DeserializeMethodText(old(out), DeserializeHeader(kind, name), FieldReads(config.mangle, fields),
                                           ConstructorCall(name, fields))
      ensures currentNamespace == old(currentNamespace)
    {
      out := out + ["", DeserializeHeader(kind, name)];
      WriteLines(FieldReads(config.mangle, fields));
      out := out + [ConstructorCall(name, fields), "}"];
    }

    /** One deserializing entry point per configured encoding. */
    method WriteDeserializers(name: string)
      modifies this
      ensures out == AppendBlocks(old(out), DeserializerBlocks(config, name), |config.encodings|)
      ensures currentNamespace == old(currentNamespace)
    {
      ghost var o := out;
      for i := 0 to |config.encodings|
        invariant out == AppendBlocks(o, DeserializerBlocks(config, name), i)
        invariant currentNamespace == old(currentNamespace)
      {
        OutputClassDeserializeForEncoding(name, config.encodings[i]);
      }
    }

    /**
     * The binary codec of a class, written only when serialization is
     * configured: `serialize` (and, on a top-level container, one entry point
     * per encoding), then `deserialize` or `load` (and again the entry points).
     */
    method WriteCodec(kind: ClassKind, name: string, fields: seq<Named<Format>>)
      modifies this
      ensures out == CodecText(old(out), config, kind, name, FieldWrites(config.mangle, fields),
                               FieldReads(config.mangle, fields), ConstructorCall(name, fields))
      ensures currentNamespace == old(currentNamespace)
    {
      if config.serialization {
        WriteSerialize(kind, fields);
        if kind.TopLevel? {
          WriteSerializers();
        }
      }
      if config.serialization {
        WriteDeserialize(kind, name, fields);
        if kind.TopLevel? {
          WriteDeserializers(name);
        }
      }
    }

    /** `operator ==`: one comparison per field, chained by `&&`. */
    method WriteEquality(name: string, fields: seq<Named<Format>>)
      modifies this
      ensures out == EqualityText(old(out), name, EqualityLines(fields))
      ensures currentNamespace == old(currentNamespace)
    {
      out := out + EqualityHead(name);
      if |fields| > 0 {
        out := out + [""];
        WriteLines(EqualityLines(fields));
        out := out + ["return true;}", "else return false;"];
      } else {
        out := out + ["return true;"];
      }
      out := out + ["}"];
    }

    /** `hashCode`: start at 7 and fold in each field. */
    method WriteHashCode(fields: seq<Named<Format>>)
      modifies this
      ensures out == HashText(old(out), HashSteps(fields))
      ensures currentNamespace == old(currentNamespace)
    {
      out := out + ["", "@override", "int get hashCode {", "int value = 7;"];
      WriteLines(HashSteps(fields));
      out := out + ["return value;", "}"];
    }

    /** The JSON constructor: `fromJson` of a container, `loadJson` of a variant. */
    method WriteFromJson(kind: ClassKind, name: string, fields: seq<Named<Format>>, redefine: bool)
      requires FieldsResolved(fields)
      modifies this
      ensures out == FromJsonText(old(out), kind, name, fields, redefine, JsonInits(fields))
      ensures currentNamespace == old(currentNamespace)
    {
      if |fields| > 0 {
        out := out + ["", JsonCtorHeader(kind, name, true)];
        if redefine {
          out := out + [fields[0].name + " = json ;"];
        } else {
          WriteLines(JsonInits(fields));
        }
      } else {
        out := out + ["", JsonCtorHeader(kind, name, false)];
      }
    }

    /** `toJson`: a map of the fields, tagged for a variant; a redefining class returns its field. */
    method WriteToJson(kind: ClassKind, fields: seq<Named<Format>>, redefine: bool, actualName: string)
      modifies this
      ensures out == ToJsonText(old(out), kind, fields, redefine, actualName, JsonEntries(fields))
      ensures currentNamespace == old(currentNamespace)
    {
      if !redefine {
        out := out + ["", "dynamic toJson() => {"];
        WriteLines(JsonEntries(fields));
        if kind.VariantOf? {
          out := out + VariantTypeLines(kind.index, actualName);
        }
        out := out + ["};"];
      } else if |fields| > 0 {
        out := out + ["", "dynamic toJson() => " + fields[0].name + ";"];
      }
    }

    /**
     * `output_struct_or_variant_container`: the whole class of a container
     * or of a variant, written block by block inside its own namespace.
     */
    method OutputStructOrVariantContainer(kind: ClassKind, name: string, fields: seq<Named<Format>>,
                                          redefine: bool, actualName: string)
      requires FieldsResolved(fields)
      modifies this
      ensures out == ClassOutput(old(out), config, kind, name, fields, redefine, actualName)
      ensures currentNamespace == old(currentNamespace)
    {
      WriteDeclarations(kind, name, fields);
      WriteCodec(kind, name, fields);
      WriteEquality(name, fields);
      WriteHashCode(fields);
      WriteFromJson(kind, name, fields, redefine);
      WriteToJson(kind, fields, redefine, actualName);
      LeaveClass();
      out := out + ["}"];
    }

    /** `output_container`: an enum takes its own path; any other container is one class. */
    method OutputContainer(name: string, c: ContainerFormat)
      requires ContainerResolved(c) && (c.Enum? ==> TagsAscending(c.variants))
      modifies this
      ensures out == ContainerOutput(old(out), config, name, c)
      ensures currentNamespace == old(currentNamespace)
    {
      if c.Enum? {
        OutputEnumContainer(name, c.variants);
      } else {
        ContainerFieldsResolved(c);
        var fields := ContainerFields(c);
        var redefine := Redefines(c);
        OutputStructOrVariantContainer(TopLevel, name, fields, redefine, name);
      }
    }

    // -------------------------------------------------------------------------
    // Enums.

    /** `output_variant`: the class of one variant, named by the caller. */
    method OutputVariant(base: string, index: nat, name: string, variant: VariantFormat, actualName: string)
      requires VariantResolved(variant)
      modifies this
      ensures out == ClassOutput(old(out), config, VariantOf(base, index), name, VariantFields(variant), false, actualName)
      ensures currentNamespace == old(currentNamespace)
    {
      VariantFieldsResolved(variant);
      var fields := VariantFields(variant);
      OutputStructOrVariantContainer(VariantOf(base, index), name, fields, false, actualName);
    }

    /** `output_variants`: one class per variant, in ascending tag order. */
    method OutputVariants(base: string, variants: Variants)
      requires VariantsResolved(variants) && TagsAscending(variants)
      modifies this
      ensures out == VariantsOutput(old(out), config, base, variants, |variants|)
      ensures currentNamespace == old(currentNamespace)
    {
      ghost var o := out;
      for i := 0 to |variants|
        invariant out == VariantsOutput(o, config, base, variants, i)
        invariant currentNamespace == old(currentNamespace)
      {
        var (index, variant) := variants[i];
        OutputVariant(base, index, VariantClassName(base, variant), variant.value, variant.name);
      }
    }

    /** The `switch` over the variant index in the abstract class's `deserialize`. */
    method WriteBinaryDispatch(name: string, variants: Variants)
      modifies this
      ensures out == BinaryDispatchText(old(out), name, CaseLines(name, variants, BinaryLoad))
      ensures currentNamespace == old(currentNamespace)
    {
      out := out + BinaryDispatchHead(name);
      WriteLines(CaseLines(name, variants, BinaryLoad));
      out := out + ["default: throw new Exception(\"Unknown variant index for " + name + ": \" + index.toString());", "}", "}"];
    }

    /** The `switch` over the `type` entry in the abstract class's `fromJson`. */
    method WriteJsonDispatch(name: string, variants: Variants)
      modifies this
      ensures out == JsonDispatchText(old(out), name, CaseLines(name, variants, JsonLoad))
      ensures currentNamespace == old(currentNamespace)
    {
      out := out + JsonDispatchHead(name);
      WriteLines(CaseLines(name, variants, JsonLoad));
      out := out + ["default: throw new Exception(\"Unknown type for " + name + ": \" + type.toString());", "}", "}",
                    "", "dynamic toJson();"];
    }

    /** Per encoding, the base class's serializing and then its deserializing entry point. */
    method WriteEncodingPairs(name: string)
      modifies this
      ensures out == AppendBlocks(old(out), EncodingPairs(config, name), |config.encodings|)
      ensures currentNamespace == old(currentNamespace)
    {
      ghost var o := out;
      for i := 0 to |config.encodings|
        invariant out == AppendBlocks(o, EncodingPairs(config, name), i)
        invariant currentNamespace == old(currentNamespace)
      {
        ghost var before := out;
        var encoding := config.encodings[i];
        OutputClassSerializeForEncoding(encoding);
        OutputClassDeserializeForEncoding(name, encoding);
        AppendAssoc(before, SerializeForEncoding(encoding, config.camelCase(encoding)),
                    DeserializeForEncoding(name, encoding, config.camelCase(encoding)));
      }
    }

    /** With serialization, the binary dispatch, each encoding's entry points, the JSON dispatch. */
    method WriteDispatch(name: string, variants: Variants)
      modifies this
      ensures out == DispatchText(old(out), config, name, variants)
      ensures currentNamespace == old(currentNamespace)
    {
      if config.serialization {
        WriteBinaryDispatch(name, variants);
        WriteEncodingPairs(name);
        WriteJsonDispatch(name, variants);
      }
    }

    /**
     * The abstract base class of an enum, with its dispatching loaders and
     * per-encoding entry points when serialization is configured; its
     * namespace stays open for the variant classes.
     */
    method WriteEnumClass(name: string, variants: Variants)
      modifies this
      ensures out == EnumClassText(old(out), config, name, variants)
      ensures currentNamespace == old(currentNamespace) + [name]
    {
      out := out + ["", "abstract class " + name + " {"];
      EnterClass(name);
      out := out + [name + "();"];
      assert out == old(out) + EnumHead(name);
      WriteDispatch(name, variants);
      out := out + ["}", ""];
    }

    /**
     * `output_enum_container`: the abstract base class with its dispatching
     * loaders and per-encoding entry points, then the variant classes.
     */
    method OutputEnumContainer(name: string, variants: Variants)
      requires VariantsResolved(variants) && TagsAscending(variants)
      modifies this
      ensures out == EnumOutput(old(out), config, name, variants)
      ensures currentNamespace == old(currentNamespace)
    {
      WriteEnumClass(name, variants);
      OutputVariants(name, variants);
      LeaveClass();
    }
  }
}
