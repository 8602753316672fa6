# Dart emission engine of serde-generate, in Dafny

This project models the Dart code generator of `serde-generate`
(`serde-generate/src/dart.rs`). The generator reads a registry of named
container formats built from serde-reflection formats. For each container it
writes a Dart class with these parts:

- field declarations and a constructor with non-null checks;
- binary `serialize` / `deserialize` methods;
- per-encoding `bcsSerialize` / `bcsDeserialize` style entry points;
- structural equality, a hash code, and `fromJson` / `toJson`.

It also writes one `TraitHelpers` class. That class holds a
serializer/deserializer pair for every composite format (option, sequence,
map, tuple, fixed-size array) reachable from the registry.

The emitted text is modelled as a sequence of lines. `DartEmitter` is a class
with two mutable fields: the lines written so far (`out`) and the stack of
enclosing classes (`currentNamespace`). Every `output_*` routine is a method
proved to append exactly the text described by a specification function
(`ClassOutput`, `EnumOutput`, `TraitHelpersText`, …). Lemmas about those
functions state what the generated code promises:

- the writer and the reader take the same route for every format;
- fields are written and read in declaration order;
- an enum variant writes its index first;
- helpers are declared once each, in ascending key order;
- a fixed-size array puts no length on the wire;
- decoding rejects trailing bytes;
- equality uses `isListsEqual` exactly for lists;
- the hash starts at 7 and folds `31 * value`.

Modules, in dependency order:

- `Text`: numbers as decimal strings, `Join`, lexicographic order, appending lines and blocks;
- `SortedMaps`: `BTreeMap<String, _>` as a strictly sorted association list;
- `Formats`: the format grammar, the registry, and the post-order visit;
- `TypeMapper`: `quote_type` / `quote_types`;
- `Expressions`: `quote_serialize_value`, `quote_deserialize`, `to_json`, `from_json`;
- `HelperCollection`: collecting the helper table of `output_trait_helpers`;
- `HelperText` and `HelperWire`: the helper bodies and their wire agreement;
- `Containers`: configuration, class kinds, and field derivation;
- `ClassText`: the text of a struct or variant class;
- `EnumText`: the text of an enum class;
- `Emitter`: the `DartEmitter` class.

Three asymmetries of the generated code are modelled as the generator writes them:

- `fromJson` of a tuple field assigns the field to itself. It does not read from the JSON object.
- `fromJson` of a map field goes through `Bytes.fromJson`.
- An enum's `fromJson` / `toJson` dispatch is emitted only when serialization is enabled. A struct's JSON methods are emitted regardless.

## Model

| member | source | states |
|---|---|---|
| TypeMapper.QuoteType | serde-generate/src/dart.rs:307-338 | the Dart type is defined for every format without a `Variable` placeholder; a named type is quoted as its own name, unchanged |
| TypeMapper.ArrayTypeIsSeqType | serde-generate/src/dart.rs:330-335 | a fixed-size array of any size has the same Dart type `List<T>` as a sequence of the same content |
| TypeMapper.QuoteTypeIgnoresSizes | serde-generate/src/dart.rs:307-338 | erasing every array size anywhere inside a format leaves its Dart type unchanged |
| TypeMapper.CompositeTypeLetter | serde-generate/src/dart.rs:329-335 | the type of an option starts with `O`, of a map with `M`, of a tuple with `T`, of a sequence or array with `L` |
| TypeMapper.CompositeTypesKeepShape | serde-generate/src/dart.rs:329-335 | two composite formats with the same Dart type have the same shape: option, map and tuple each get their own types; only sequence and array share one |
| TypeMapper.QuoteTypesAppend | serde-generate/src/dart.rs:340-346 | the type list of a concatenation is the two lists joined by `, ` (element order is kept) |
| TypeMapper.QuoteEachAt | serde-generate/src/dart.rs:340-346 | the i-th listed type is the type of the i-th format |
| Expressions.PrimitiveKindRoundTrip | serde-generate/src/dart.rs:352-368 | the runtime method suffix of a primitive names that primitive back: the suffix table is invertible |
| Expressions.PrimitiveKindInjective | serde-generate/src/dart.rs:352-368 | two primitives with the same runtime suffix are the same primitive |
| Expressions.HelperRouteIffNeedsHelper | serde-generate/src/dart.rs:442-448 | on resolved formats, a value goes through a `TraitHelpers` routine exactly when `needs_helper` holds (option, sequence, map, tuple, array) |
| Expressions.PrimitiveSerializeInjective | serde-generate/src/dart.rs:348-376 | distinct primitives produce distinct serialize statements for the same value |
| Expressions.PrimitiveDeserializeInjective | serde-generate/src/dart.rs:378-408 | distinct primitives produce distinct deserialize expressions |
| Expressions.ToJsonKeyIsName | serde-generate/src/dart.rs:251-276 | every JSON entry starts with the field name as key, in single quotes for a sequence and double quotes otherwise |
| Expressions.FromJsonAssignsField | serde-generate/src/dart.rs:278-305 | every JSON initializer assigns the field of the same name |
| Expressions.JsonKeysAgree | serde-generate/src/dart.rs:278-305 | for every non-tuple field, the initializer reads `json['name']`, the key `toJson` writes |
| SortedMaps.InsertSorted | serde-generate/src/dart.rs:421-431 | inserting into the helper table keeps its keys strictly ascending |
| SortedMaps.InsertKeys | serde-generate/src/dart.rs:421-431 | after an insert, the key set is the old key set plus the inserted key |
| SortedMaps.InsertBindings | serde-generate/src/dart.rs:421-431 | an insert binds the key to the new value, keeps every other binding and adds nothing else |
| SortedMaps.InsertLength | serde-generate/src/dart.rs:421-431 | an insert replaces an existing key in place, and otherwise grows the table by one |
| SortedMaps.KeyBoundOnce | serde-generate/src/dart.rs:433-437 | in a sorted table, each key is bound once |
| Formats.VisitUnfold | serde-generate/src/dart.rs:423-430 | the visit of a format lists the visits of its children and then the format itself |
| Formats.RegistryVisitReaches | serde-generate/src/dart.rs:421-431 | every sub-format of every container of the registry is visited |
| Formats.RegistryVisitClosed | serde-generate/src/dart.rs:421-431 | the visited formats are closed under taking children |
| HelperCollection.CollectHelpers | serde-generate/src/dart.rs:421-431 | the collection loop over the registry builds the table the visit specifies; its keys ascend strictly and are exactly the mangled names of the visited `needs_helper` formats |
| HelperCollection.TableOfWellFormed | serde-generate/src/dart.rs:421-431 | every table entry binds a visited `needs_helper` format to its own mangled name, in ascending key order |
| HelperCollection.TableEntriesResolved | serde-generate/src/dart.rs:421-437 | every entry of the helper table of a resolved registry is resolved and needs a helper |
| HelperCollection.HelperBodiesResolve | serde-generate/src/dart.rs:450-649 | every helper a helper body calls (through a composite child) is itself in the table |
| HelperCollection.FieldHelpersResolve | serde-generate/src/dart.rs:421-431 | every helper a container's code calls is in the table |
| HelperCollection.HelpersDeclaredOnceInOrder | serde-generate/src/dart.rs:433-437 | helper names are emitted in strictly ascending order, each once, and are exactly the names of the composite formats visited |
| HelperText.HelperPairsInOrder | serde-generate/src/dart.rs:433-437 | inside `class TraitHelpers`, each entry's serialization helper is followed by its deserialization helper, entries in table order |
| HelperText.TupleItemWritesAt | serde-generate/src/dart.rs:511-517 | the i-th line of a tuple writer serializes `value.item(i+1)` |
| HelperText.DeserializeEachAt | serde-generate/src/dart.rs:613-627 | the i-th tuple element is read with the reader of the i-th format |
| HelperWire.OptionHelpersAgree | serde-generate/src/dart.rs:461-474 | in the helper pair of `Option(g)`, the writer sends tag `true` and then the value, or `false` alone; the reader (lines 551-564) reads the tag first and the value only under the tag; the value's write and read take the same route, the one `RouteOf(g)` picks |
| HelperWire.SeqHelpersAgree | serde-generate/src/dart.rs:476-488 | in the helper pair of `Seq(g)`, the writer sends the length and then writes each item in a loop; the reader (lines 566-580) reads the length and then reads that many items into a list of that length; the item's write and read take the route `RouteOf(g)` picks |
| HelperWire.MapHelpersAgree | serde-generate/src/dart.rs:490-509 | in the helper pair of `Map(k, v)`, the writer sends the entry count, records where each entry starts, writes the key before the value and finally calls `sort_map_entries`; the reader (lines 582-611) reads the count, the key before the value, and from the second entry on calls `check_that_key_slices_are_increasing`; keys and values each take the route `RouteOf` picks for their format |
| HelperWire.TupleHelpersAgree | serde-generate/src/dart.rs:511-517 | in the helper pair of `Tuple(fs)`, writer line i writes `value.item(i+1)` with the writer of `fs[i]`; the reader (lines 613-627) builds the tuple type `QuoteType(Tuple(fs))`, its argument i reading `fs[i]`; write and read of element i take the route `RouteOf(fs[i])` picks |
| HelperWire.ArrayHelpersAgree | serde-generate/src/dart.rs:519-532 | the fixed-size array writer asserts the length equals the declared size and sends no length; the reader (lines 629-643) reads no length and reads exactly `size` elements |
| Containers.ContainerFieldsDerived | serde-generate/src/dart.rs:651-678 | a unit struct has no fields; a newtype struct has the single field `value` of its format and is the only redefining shape; a tuple struct has field i named `field<i>` carrying format i; a struct keeps its fields; derived names never collide |
| Containers.VariantFieldsDerived | serde-generate/src/dart.rs:1043-1077 | the same field derivation for variants: none for a unit variant, `value` for a newtype, field i named `field<i>` with format i for a tuple, the declared fields for a struct; derived names never collide |
| Containers.TupleFieldNamesDistinct | serde-generate/src/dart.rs:651-678 | positional field names are pairwise distinct |
| ClassText.DeclarationOrder | serde-generate/src/dart.rs:689-729 | class head, then the field declarations in order, then the constructor, then the non-null asserts, then the assignments, each in field order |
| ClassText.DeclarationsFollowFields | serde-generate/src/dart.rs:689-729 | in the emitted class, every field k is declared with its Dart type, is constructor parameter k, is asserted non-null and is assigned from the parameter of the same name, each in field order |
| ClassText.SerializeOrder | serde-generate/src/dart.rs:731-753 | `serialize` writes the variant index first (variants only), then each field in declaration order |
| ClassText.SerializeFollowsFields | serde-generate/src/dart.rs:731-746 | with serialization on, the emitted `serialize` writes the variant index first (variants only) and then, on body line k, field k |
| ClassText.DeserializeOrder | serde-generate/src/dart.rs:754-798 | `deserialize` reads the fields in declaration order and then calls the constructor |
| ClassText.DeserializeMirrorsFields | serde-generate/src/dart.rs:754-791 | with serialization on, line k of the emitted `deserialize` body reads field k by the same route its write took, and the constructor call passes the fields in declaration order |
| ClassText.NoCodecWithoutSerialization | serde-generate/src/dart.rs:731-798 | with serialization off, the class text does not depend on the rest of the configuration (encodings, mangler, camel-casing): no codec text is emitted and `operator ==` follows the constructor directly |
| ClassText.TrailingBytesRejected | serde-generate/src/dart.rs:917-937 | with serialization on, the emitted class contains, after its declarations, the whole decoder of every configured encoding: it deserializes the value, throws when the buffer offset is short of the input length, and otherwise returns the value |
| ClassText.SerializerEntryPoints | serde-generate/src/dart.rs:748-752 | one serializing entry point per configured encoding, in configuration order |
| ClassText.DeserializerEntryPoints | serde-generate/src/dart.rs:793-797 | one deserializing entry point per configured encoding, in configuration order |
| ClassText.EqualityTestListsExactly | serde-generate/src/dart.rs:799-836 | a field is compared with `isListsEqual` exactly when it is a sequence or a fixed-size array |
| ClassText.EqualityLayout | serde-generate/src/dart.rs:799-836 | `==` takes a covariant parameter and returns false on null; it then tests the field conjunction, one conjunct per line in field order, returning true only if it holds and false otherwise |
| ClassText.HashFold | serde-generate/src/dart.rs:837-851 | `hashCode` starts at 7; its step k is `31 * value` plus the hash of field k, or 0 when that field is null; the steps follow field order and the value is returned |
| ClassText.JsonOrder | serde-generate/src/dart.rs:853-895 | `fromJson` initializers and `toJson` entries follow declaration order |
| ClassText.JsonFieldAgrees | serde-generate/src/dart.rs:853-895 | for a non-tuple field, the k-th initializer assigns the field from `json['name']` and the k-th entry writes the same key |
| ClassText.VariantJsonTagged | serde-generate/src/dart.rs:879-895 | a variant's JSON object ends with its numeric `type` and its `type_name` |
| EnumText.NewTypeJsonIsBare | serde-generate/src/dart.rs:853-898 | the class of a newtype container ends with `fromJson` taking the whole JSON value as `value` and `toJson` returning `value` bare |
| EnumText.BinaryDispatchLayout | serde-generate/src/dart.rs:950-980 | the enum's `deserialize` reads the variant index, switches over one case per variant, and throws on an unknown index |
| EnumText.JsonDispatchLayout | serde-generate/src/dart.rs:987-1014 | the enum's `fromJson` reads `type`, switches over one case per variant, and throws on an unknown type |
| EnumText.CaseLabelUnique | serde-generate/src/dart.rs:965-971 | a case line matches the label `case m:` only if its tag is m |
| EnumText.DispatchFindsVariant | serde-generate/src/dart.rs:965-1003 | with tags ascending, case k is labelled with variant k's tag and loads variant k's class `<Enum><Variant>Item`; no other case carries that label |
| EnumText.VariantTagRoundTrip | serde-generate/src/dart.rs:939-1077 | with serialization on, the k-th class after the enum's base class is `<Enum><Variant>Item` for variant k; it writes tag k as its variant index and its JSON `type`; case k of the binary and of the JSON dispatch load that class under that tag |
| EnumText.NoDispatchWithoutSerialization | serde-generate/src/dart.rs:939-1024 | with serialization off, the enum's text, variant classes included, does not depend on the rest of the configuration, and the base class closes right after its constructor, with neither dispatch |
| EnumText.EncodingPairsInterleaved | serde-generate/src/dart.rs:982-985 | per encoding, in order, the serializing entry point followed by the deserializing one |
| Emitter.DartEmitter.constructor | serde-generate/src/dart.rs:20-28 | a fresh emitter has empty output and the given namespace |
| Emitter.DartEmitter.EnterClass | serde-generate/src/dart.rs:410-413 | pushes the class name and writes nothing |
| Emitter.DartEmitter.LeaveClass | serde-generate/src/dart.rs:415-418 | pops the innermost class and writes nothing |
| Emitter.DartEmitter.OutputSerializationHelper | serde-generate/src/dart.rs:450-538 | appends exactly the serialization helper of the format's shape |
| Emitter.DartEmitter.OutputDeserializationHelper | serde-generate/src/dart.rs:540-649 | appends exactly the deserialization helper of the format's shape |
| Emitter.DartEmitter.OutputTraitHelpers | serde-generate/src/dart.rs:420-440 | appends `class TraitHelpers` with the helper pair of every collected table entry, in table order; every entry is resolved |
| Emitter.DartEmitter.OutputClassSerializeForEncoding | serde-generate/src/dart.rs:903-915 | appends the serializing entry point of one encoding |
| Emitter.DartEmitter.OutputClassDeserializeForEncoding | serde-generate/src/dart.rs:917-937 | appends the deserializing entry point of one encoding, with its trailing-bytes guard |
| Emitter.DartEmitter.WriteDeclarations | serde-generate/src/dart.rs:689-729 | appends the class head, declarations and constructor, and enters the class |
| Emitter.DartEmitter.WriteSerialize | serde-generate/src/dart.rs:731-746 | appends `serialize` with the index write and the field writes |
| Emitter.DartEmitter.WriteSerializers | serde-generate/src/dart.rs:748-752 | appends one serializing entry point per encoding |
| Emitter.DartEmitter.WriteDeserialize | serde-generate/src/dart.rs:754-791 | appends `deserialize`/`load` with the field reads and the constructor call |
| Emitter.DartEmitter.WriteDeserializers | serde-generate/src/dart.rs:793-797 | appends one deserializing entry point per encoding |
| Emitter.DartEmitter.WriteCodec | serde-generate/src/dart.rs:731-798 | appends the codec text, or nothing when serialization is off |
| Emitter.DartEmitter.WriteEquality | serde-generate/src/dart.rs:799-836 | appends `operator ==` with one comparison per field |
| Emitter.DartEmitter.WriteHashCode | serde-generate/src/dart.rs:837-851 | appends `hashCode` with one fold step per field |
| Emitter.DartEmitter.WriteFromJson | serde-generate/src/dart.rs:853-877 | appends the `fromJson` constructor with one initializer per field |
| Emitter.DartEmitter.WriteToJson | serde-generate/src/dart.rs:879-895 | appends `toJson` with one entry per field |
| Emitter.DartEmitter.OutputStructOrVariantContainer | serde-generate/src/dart.rs:680-901 | appends the whole class and leaves the namespace as it found it |
| Emitter.DartEmitter.OutputContainer | serde-generate/src/dart.rs:651-678 | appends the class of a struct-like container from its derived fields, or the enum class and its variants |
| Emitter.DartEmitter.OutputVariant | serde-generate/src/dart.rs:1043-1077 | appends a variant class `<Enum><Variant>Item` that extends the enum and carries its index |
| Emitter.DartEmitter.OutputVariants | serde-generate/src/dart.rs:1026-1041 | for variants with strictly ascending tags (the order of the source's `BTreeMap<u32, _>`), appends the variant classes in that order, one per variant |
| Emitter.DartEmitter.WriteBinaryDispatch | serde-generate/src/dart.rs:950-980 | appends the enum's binary `deserialize` switch |
| Emitter.DartEmitter.WriteEncodingPairs | serde-generate/src/dart.rs:982-985 | appends the entry-point pair of every encoding |
| Emitter.DartEmitter.WriteJsonDispatch | serde-generate/src/dart.rs:987-1014 | appends the enum's `fromJson` switch |
| Emitter.DartEmitter.WriteDispatch | serde-generate/src/dart.rs:950-1015 | appends both dispatches and the encoding pairs when serialization is on, and nothing otherwise |
| Emitter.DartEmitter.WriteEnumClass | serde-generate/src/dart.rs:939-1019 | appends the abstract enum class and enters it |
| Emitter.DartEmitter.OutputEnumContainer | serde-generate/src/dart.rs:939-1024 | for variants with strictly ascending tags, appends the enum class and then its variants, and leaves the namespace as it found it |

## Left out

- File output is not modelled: `output`, `write_package`, `output_test`, `write_library`, `write_container_class`, `write_helper_class` and `output_preamble` create files and write the package skeleton. The model starts from an emitter and its output lines.
- The `IndentedWriter` is reduced to its lines. Indentation (`indent`/`unindent`) is not modelled, and a `write!` without a newline is merged with the following line.
- `common::mangle_type` and `heck::to_camel_case` are parameters of the configuration. Nothing is assumed about them, not even injectivity.
- `quote_qualified_name` is the identity: external definitions are not modelled.
- The `Encoding` enum is not part of this model. Encodings are carried by their names.
- Variant tags (`u32`) are natural numbers. The width of the tag is not modelled.
- The panics on an unresolved `Variable` format are preconditions (`Resolved`), not modelled panics. The panic of `quote_type` is a precondition of the type and expression functions. The panic of `visit().unwrap()` in `output_trait_helpers` (dart.rs:423-430) is the precondition `RegistryResolved` of `Emitter.DartEmitter.OutputTraitHelpers`.
- HelperCollection.CollectHelpers: has no precondition, so on a registry holding a `Variable` it completes where the source panics; the emitter calls it only on a resolved registry.
- The runtime behaviour of the generated Dart is not modelled: the serde runtime, `isListsEqual` and the encodings' byte layouts. The lemmas state what the emitted text does, not what Dart executes.
- serde-reflection's `visit` is external and is modelled as a post-order traversal.
- The registry (`BTreeMap<String, ContainerFormat>`) is a list taken in key order, with no order or uniqueness invariant: only its visit is used, and the helper table is sorted on its own. An enum's variant map (`BTreeMap<u32, _>`) is a list whose strictly ascending tags are a precondition (`TagsAscending`) of the methods that emit it.
- `current_namespace` does not influence any emitted text in this file. It is tracked as a stack and proved to be restored.
- Expressions.JsonKeysAgree: excludes tuple fields, because `from_json` writes `name = name` for a tuple and reads nothing from the JSON object.
- ClassText.JsonFieldAgrees: excludes tuple fields, for the same reason.
- TypeMapper.QuoteType: its own contract states only that named types are kept. About the other cases the lemmas state the first letter of each composite type, that equal composite types have the same shape, and that an array has the type of a sequence; the full type of a primitive, option, map or tuple is stated by no lemma.
- Emitter.DartEmitter.OutputDeserializationHelper: appends the helper text in one step. The per-element writes of the source are not modelled.
- Emitter.DartEmitter.OutputSerializationHelper: only the tuple writer is written line by line. The other shapes are appended in one step.
- Per-field loops (declarations, writes, reads, equality, hash, JSON) write the list of derived lines in one loop. The lines are not computed one field at a time.
