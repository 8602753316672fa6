/**
 * The text of one generated Dart class, as `output_struct_or_variant_container`
 * writes it, line by line. Every function takes the output so far, `o`, and
 * returns it with its own lines appended, in the order the generator writes
 * them; the per-field parts are the field lists of the class mapped one line
 * per field.
 */
module ClassText {
  import opened Text
  import opened Formats
  import opened TypeMapper
  import opened Expressions
  import opened Containers

  // ---------------------------------------------------------------------------
  // One line per field.

  function CtorParam(f: Named<Format>): string
    requires Resolved(f.value)
  {
    QuoteType(f.value) + " " + f.name
  }

  function CtorParams(fields: seq<Named<Format>>): (params: seq<string>)
    requires FieldsResolved(fields)
    ensures |params| == |fields|
    ensures forall i :: 0 <= i < |fields| ==> params[i] == CtorParam(fields[i])
  {
    seq(|fields|, i requires 0 <= i < |fields| => CtorParam(fields[i]))
  }

  function FieldDecls(fields: seq<Named<Format>>): (lines: seq<string>)
    requires FieldsResolved(fields)
    ensures |lines| == |fields|
    ensures forall i :: 0 <= i < |fields| ==> lines[i] == CtorParam(fields[i]) + ";"
  {
    seq(|fields|, i requires 0 <= i < |fields| => CtorParam(fields[i]) + ";")
  }

  function NonNullAsserts(fields: seq<Named<Format>>): (lines: seq<string>)
    ensures |lines| == |fields|
    ensures forall i :: 0 <= i < |fields| ==> lines[i] == "assert (" + fields[i].name + " != null);"
  {
    seq(|fields|, i requires 0 <= i < |fields| => "assert (" + fields[i].name + " != null);")
  }

  function FieldAssigns(fields: seq<Named<Format>>): (lines: seq<string>)
    ensures |lines| == |fields|
    ensures forall i :: 0 <= i < |fields| ==> lines[i] == "this." + fields[i].name + " = " + fields[i].name + ";"
  {
    seq(|fields|, i requires 0 <= i < |fields| => "this." + fields[i].name + " = " + fields[i].name + ";")
  }

  function FieldWrites(mangle: Mangler, fields: seq<Named<Format>>): (lines: seq<string>)
    ensures |lines| == |fields|
    ensures forall i :: 0 <= i < |fields| ==> lines[i] == SerializeValue(mangle, fields[i].name, fields[i].value)
  {
    seq(|fields|, i requires 0 <= i < |fields| => SerializeValue(mangle, fields[i].name, fields[i].value))
  }

  function FieldRead(mangle: Mangler, f: Named<Format>): string {
    "var " + f.name + " = " + DeserializeExpr(mangle, f.value) + ";"
  }

  function FieldReads(mangle: Mangler, fields: seq<Named<Format>>): (lines: seq<string>)
    ensures |lines| == |fields|
    ensures forall i :: 0 <= i < |fields| ==> lines[i] == FieldRead(mangle, fields[i])
  {
    seq(|fields|, i requires 0 <= i < |fields| => FieldRead(mangle, fields[i]))
  }

  /** The comparison of one field: element-wise for lists, `==` otherwise. */
  function EqualityTest(f: Named<Format>): string {
    if f.value.Seq? || f.value.TupleArray? then " isListsEqual(this." + f.name + " , other." + f.name + ") "
    else " this." + f.name + " == other." + f.name + " "
  }

  /** Line `i` of the conjunction: opened by `if (`, closed by ` ){`. */
  function EqualityLine(fields: seq<Named<Format>>, i: nat): string
    requires i < |fields|
  {
    (if i == 0 then "if (" else "") + " " + EqualityTest(fields[i]) + (if i < |fields| - 1 then " &&" else " ){")
  }

  function EqualityLines(fields: seq<Named<Format>>): (lines: seq<string>)
    ensures |lines| == |fields|
    ensures forall i :: 0 <= i < |fields| ==> lines[i] == EqualityLine(fields, i)
  {
    seq(|fields|, i requires 0 <= i < |fields| => EqualityLine(fields, i))
  }

  function HashStep(f: Named<Format>): string {
    "value = 31 * value + (this." + f.name + " != null ? this." + f.name + ".hashCode : 0);"
  }

  function HashSteps(fields: seq<Named<Format>>): (lines: seq<string>)
    ensures |lines| == |fields|
    ensures forall i :: 0 <= i < |fields| ==> lines[i] == HashStep(fields[i])
  {
    seq(|fields|, i requires 0 <= i < |fields| => HashStep(fields[i]))
  }

  /** One initializer of the JSON constructor: `,` between, `;` after the last. */
  function JsonInit(fields: seq<Named<Format>>, i: nat): string
    requires i < |fields| && Resolved(fields[i].value)
  {
    FromJson(fields[i]) + (if i == |fields| - 1 then " ;" else " ,")
  }

  function JsonInits(fields: seq<Named<Format>>): (lines: seq<string>)
    requires FieldsResolved(fields)
    ensures |lines| == |fields|
    ensures forall i :: 0 <= i < |fields| ==> lines[i] == JsonInit(fields, i)
  {
    seq(|fields|, i requires 0 <= i < |fields| => JsonInit(fields, i))
  }

  function JsonEntries(fields: seq<Named<Format>>): (lines: seq<string>)
    ensures |lines| == |fields|
    ensures forall i :: 0 <= i < |fields| ==> lines[i] == ToJson(fields[i]) + ","
  {
    seq(|fields|, i requires 0 <= i < |fields| => ToJson(fields[i]) + ",")
  }

  // ---------------------------------------------------------------------------
  // The blocks of a class, in the order they are written. Each block takes its
  // per-field lines already rendered, so that what a block is made of and what
  // each line says are stated apart.

  function ClassHead(kind: ClassKind, name: string): string {
    if kind.VariantOf? then "class " + name + " extends " + kind.base + " {" else "class " + name + " {"
  }

  function CtorHeader(name: string, fields: seq<Named<Format>>): string
    requires FieldsResolved(fields)
  {
    name + "(" + Join(", ", CtorParams(fields)) + ") {"
  }

  /**
   * The class head, one declaration per field (and a blank line if there is
   * any), and the constructor, which asserts each argument non-null and then
   * assigns each to its field.
   */
  function DeclarationText(o: seq<string>, head: string, decls: seq<string>, ctor: string,
                           asserts: seq<string>, assigns: seq<string>): seq<string>
  {
    var o1 := AppendLines(o + ["", head], decls, |decls|);
    var o2 := if |decls| > 0 then o1 + [""] else o1;
    AppendLines(AppendLines(o2 + [ctor], asserts, |asserts|), assigns, |assigns|) + ["}"]
  }

  function VariantIndexWrite(index: nat): string {
    "serializer.serialize_variant_index(" + NatToString(index) + ");"
  }

  /** The signatures of the binary codec's methods. */
  const SerializeSignature := "void serialize(BinarySerializer serializer){"
  const DeserializeSignature := " deserialize(BinaryDeserializer deserializer){"
  const LoadSignature := " load(BinaryDeserializer deserializer){"

  /** `serialize`: the variant index of a variant first, then the field writes. */
  function SerializeMethodText(o: seq<string>, kind: ClassKind, writes: seq<string>): seq<string> {
    var o1 := o + ["", SerializeSignature];
    var o2 := if kind.VariantOf? then o1 + [VariantIndexWrite(kind.index)] else o1;
    AppendLines(o2, writes, |writes|) + ["}"]
  }

  function DeserializeHeader(kind: ClassKind, name: string): string {
    "static " + name + (if kind.TopLevel? then DeserializeSignature else LoadSignature)
  }

  /** The constructor call that ends `deserialize`: the fields' locals, in field order. */
  function ConstructorCall(name: string, fields: seq<Named<Format>>): string {
    "return new " + name + "(" + Join(",", FieldNames(fields)) + ");"
  }

  /**
   * `deserialize` of a container, `load` of a variant (whose variant index the
   * enum has already read): the field loads, then the constructor call.
   */
  function DeserializeMethodText(o: seq<string>, header: string, loads: seq<string>, call: string): seq<string> {
    AppendLines(o + ["", header], loads, |loads|) + [call, "}"]
  }

  /** `output_class_serialize_for_encoding`. */
  function SerializeForEncoding(encoding: string, camel: string): (lines: seq<string>)
    ensures |lines| == 6
  {
    [ "",
      "Uint8List " + encoding + "Serialize() {",
      "    var serializer = new " + camel + "Serializer();",
      "    serialize(serializer);",
      "    return serializer.get_bytes();",
      "}" ]
  }

  /** The guard of a deserializing entry point against unread input, and what it throws. */
  const UnreadInputGuard := "    if (deserializer.get_buffer_offset() < input.length) {"
  const UnreadInputThrow := "         throw new Exception(\"Some input bytes were not read\");"

  /** `output_class_deserialize_for_encoding`. */
  function DeserializeForEncoding(name: string, encoding: string, camel: string): (lines: seq<string>)
    ensures |lines| == 9
  {
    [ "",
      "static " + name + " " + encoding + "Deserialize(Uint8List input)  {",
      "   var deserializer = new " + camel + "Deserializer(input);",
      "    " + name + " value = deserialize(deserializer);",
      UnreadInputGuard,
      UnreadInputThrow,
      "    }",
      "    return value;",
      "}" ]
  }

  /** One serializing entry point per configured encoding, in configuration order. */
  function SerializerBlocks(cfg: Config): (blocks: seq<seq<string>>)
    ensures |blocks| == |cfg.encodings|
    ensures forall i :: 0 <= i < |blocks| ==>
      blocks[i] == SerializeForEncoding(cfg.encodings[i], cfg.camelCase(cfg.encodings[i]))
  {
    seq(|cfg.encodings|, i requires 0 <= i < |cfg.encodings| =>
      SerializeForEncoding(cfg.encodings[i], cfg.camelCase(cfg.encodings[i])))
  }

  /** One deserializing entry point per configured encoding, in configuration order. */
  function DeserializerBlocks(cfg: Config, name: string): (blocks: seq<seq<string>>)
    ensures |blocks| == |cfg.encodings|
    ensures forall i :: 0 <= i < |blocks| ==>
      blocks[i] == DeserializeForEncoding(name, cfg.encodings[i], cfg.camelCase(cfg.encodings[i]))
  {
    seq(|cfg.encodings|, i requires 0 <= i < |cfg.encodings| =>
      DeserializeForEncoding(name, cfg.encodings[i], cfg.camelCase(cfg.encodings[i])))
  }

  /**
   * The binary codec of a class, present only when serialization is
   * configured; the per-encoding entry points only on top-level containers.
   */
  function CodecText(o: seq<string>, cfg: Config, kind: ClassKind, name: string,
                     writes: seq<string>, loads: seq<string>, call: string): seq<string>
  {
    if !cfg.serialization then o
    else
      var o1 := SerializeMethodText(o, kind, writes);
      var o2 := if kind.TopLevel? then AppendBlocks(o1, SerializerBlocks(cfg), |cfg.encodings|) else o1;
      var o3 := DeserializeMethodText(o2, DeserializeHeader(kind, name), loads, call);
      if kind.TopLevel? then AppendBlocks(o3, DeserializerBlocks(cfg, name), |cfg.encodings|) else o3
  }

  function EqualityHead(name: string): seq<string> {
    ["", "@override", "bool operator ==(covariant " + name + " other) {", "if (other == null) return false;"]
  }

  /** `operator ==`: the field comparisons as one conjunction, or `true` without fields. */
  function EqualityText(o: seq<string>, name: string, conjuncts: seq<string>): seq<string> {
    var o1 := o + EqualityHead(name);
    var o2 :=
      if |conjuncts| > 0 then AppendLines(o1 + [""], conjuncts, |conjuncts|) + ["return true;}", "else return false;"]
      else o1 + ["return true;"];
    o2 + ["}"]
  }

  /** `hashCode`: start at 7, fold in each field, return the result. */
  function HashText(o: seq<string>, steps: seq<string>): seq<string> {
    AppendLines(o + ["", "@override", "int get hashCode {", "int value = 7;"], steps, |steps|) + ["return value;", "}"]
  }

  function JsonCtorHeader(kind: ClassKind, name: string, hasFields: bool): string {
    if hasFields then
      if kind.TopLevel? then name + ".fromJson(dynamic json) :" else name + ".loadJson(dynamic json) :"
    else
      if kind.TopLevel? then name + ".fromJson(dynamic json);" else name + ".loadJson(dynamic json);"
  }

  /**
   * The JSON constructor, `fromJson` of a container and `loadJson` of a
   * variant: one initializer per field, or the whole JSON value for a class
   * that redefines itself as its single field.
   */
  function FromJsonText(o: seq<string>, kind: ClassKind, name: string, fields: seq<Named<Format>>,
                        redefine: bool, inits: seq<string>): seq<string>
  {
    var o1 := o + ["", JsonCtorHeader(kind, name, |fields| > 0)];
    if |fields| == 0 then o1
    else if redefine then o1 + [fields[0].name + " = json ;"]
    else AppendLines(o1, inits, |inits|)
  }

  function VariantTypeLines(index: nat, actualName: string): seq<string> {
    ["\"type\" : " + NatToString(index) + ",", "\"type_name\" : \"" + actualName + "\""]
  }

  /** `toJson`: a map of the entries, tagged by a variant; a redefining class is its field. */
  function ToJsonText(o: seq<string>, kind: ClassKind, fields: seq<Named<Format>>, redefine: bool,
                      actualName: string, entries: seq<string>): seq<string>
  {
    if !redefine then
      var o1 := AppendLines(o + ["", "dynamic toJson() => {"], entries, |entries|);
      var o2 := if kind.VariantOf? then o1 + VariantTypeLines(kind.index, actualName) else o1;
      o2 + ["};"]
    else if |fields| > 0 then o + ["", "dynamic toJson() => " + fields[0].name + ";"]
    else o
  }

  /** The declarations and the constructor, the first block of every class. */
  function ClassDeclarations(o: seq<string>, kind: ClassKind, name: string, fields: seq<Named<Format>>): seq<string>
    requires FieldsResolved(fields)
  {
    DeclarationText(o, ClassHead(kind, name), FieldDecls(fields), CtorHeader(name, fields),
                    NonNullAsserts(fields), FieldAssigns(fields))
  }

  /** The codec of a class, written after its declarations. */
  function ClassCodec(o1: seq<string>, cfg: Config, kind: ClassKind, name: string, fields: seq<Named<Format>>): seq<string>
  {
    CodecText(o1, cfg, kind, name, FieldWrites(cfg.mangle, fields), FieldReads(cfg.mangle, fields),
              ConstructorCall(name, fields))
  }

  /** Equality, hash code and JSON, then the closing brace of the class. */
  function ClassTail(o2: seq<string>, kind: ClassKind, name: string, fields: seq<Named<Format>>,
                     redefine: bool, actualName: string): seq<string>
    requires FieldsResolved(fields)
  {
    var o3 := EqualityText(o2, name, EqualityLines(fields));
    var o4 := HashText(o3, HashSteps(fields));
    var o5 := FromJsonText(o4, kind, name, fields, redefine, JsonInits(fields));
    ToJsonText(o5, kind, fields, redefine, actualName, JsonEntries(fields)) + ["}"]
  }

  /** The whole class: `o` followed by what `output_struct_or_variant_container` writes. */
  function ClassOutput(o: seq<string>, cfg: Config, kind: ClassKind, name: string, fields: seq<Named<Format>>,
                       redefine: bool, actualName: string): seq<string>
    requires FieldsResolved(fields)
  {
    ClassTail(ClassCodec(ClassDeclarations(o, kind, name, fields), cfg, kind, name, fields),
              kind, name, fields, redefine, actualName)
  }


  // ---------------------------------------------------------------------------
  // What the class text promises.

  /**
   * The class opens with its head and declares field `k` on line `k` after
   * it; the constructor then asserts and assigns the fields in the same order.
   */
  lemma DeclarationOrder(o: seq<string>, head: string, decls: seq<string>, ctor: string,
                         asserts: seq<string>, assigns: seq<string>, k: nat)
    requires |asserts| == |assigns| == |decls| && k < |decls|
    ensures var d, n := DeclarationText(o, head, decls, ctor, asserts, assigns), |decls|;
      && |d| == |o| + 5 + 3 * n
      && d[|o| + 1] == head
      && d[|o| + 2 + k] == decls[k]
      && d[|o| + 3 + n] == ctor
      && d[|o| + 4 + n + k] == asserts[k]
      && d[|o| + 4 + 2 * n + k] == assigns[k]
  {
    HeadDeclaredAt(o, head, decls, ctor, asserts, assigns);
    FieldDeclaredAt(o, head, decls, ctor, asserts, assigns, k);
    CtorDeclaredAt(o, head, decls, ctor, asserts, assigns);
    AssertedAt(o, head, decls, ctor, asserts, assigns, k);
    AssignedAt(o, head, decls, ctor, asserts, assigns, k);
  }

  lemma DeclaredAt(o: seq<string>, head: string, decls: seq<string>, ctor: string,
                   asserts: seq<string>, assigns: seq<string>, i: nat)
    requires |asserts| == |assigns| == |decls| > 0 && 1 <= i <= 3 + |decls|
    ensures var d, o1 := DeclarationText(o, head, decls, ctor, asserts, assigns), AppendLines(o + ["", head], decls, |decls|);
      d[|o| + i] == (o1 + [""] + [ctor])[|o| + i]
  {
    var n := |decls|;
    var o1 := AppendLines(o + ["", head], decls, n);
    var o2 := o1 + [""] + [ctor];
    var o3 := AppendLines(o2, asserts, n);
    var o4 := AppendLines(o3, assigns, n);
    assert DeclarationText(o, head, decls, ctor, asserts, assigns) == o4 + ["}"];
    assert (o4 + ["}"])[|o| + i] == o4[|o| + i];
    AppendLinesAt(o3, assigns, n, |o| + i);
    AppendLinesAt(o2, asserts, n, |o| + i);
  }

  lemma HeadDeclaredAt(o: seq<string>, head: string, decls: seq<string>, ctor: string,
                       asserts: seq<string>, assigns: seq<string>)
    requires |asserts| == |assigns| == |decls| > 0
    ensures DeclarationText(o, head, decls, ctor, asserts, assigns)[|o| + 1] == head
  {
    DeclaredAt(o, head, decls, ctor, asserts, assigns, 1);
    AppendLinesAt(o + ["", head], decls, |decls|, |o| + 1);
  }

  lemma FieldDeclaredAt(o: seq<string>, head: string, decls: seq<string>, ctor: string,
                        asserts: seq<string>, assigns: seq<string>, k: nat)
    requires |asserts| == |assigns| == |decls| && k < |decls|
    ensures DeclarationText(o, head, decls, ctor, asserts, assigns)[|o| + 2 + k] == decls[k]
  {
    DeclaredAt(o, head, decls, ctor, asserts, assigns, 2 + k);
    AppendLinesAt(o + ["", head], decls, |decls|, |o| + 2 + k);
  }

  lemma CtorDeclaredAt(o: seq<string>, head: string, decls: seq<string>, ctor: string,
                       asserts: seq<string>, assigns: seq<string>)
    requires |asserts| == |assigns| == |decls| > 0
    ensures DeclarationText(o, head, decls, ctor, asserts, assigns)[|o| + 3 + |decls|] == ctor
  {
    DeclaredAt(o, head, decls, ctor, asserts, assigns, 3 + |decls|);
  }

  lemma AssertedAt(o: seq<string>, head: string, decls: seq<string>, ctor: string,
                   asserts: seq<string>, assigns: seq<string>, k: nat)
    requires |asserts| == |assigns| == |decls| && k < |decls|
    ensures DeclarationText(o, head, decls, ctor, asserts, assigns)[|o| + 4 + |decls| + k] == asserts[k]
  {
    var n := |decls|;
    var o2 := AppendLines(o + ["", head], decls, n) + [""] + [ctor];
    var o3 := AppendLines(o2, asserts, n);
    AppendLinesAt(o3, assigns, n, |o| + 4 + n + k);
    AppendLinesAt(o2, asserts, n, |o| + 4 + n + k);
  }

  lemma AssignedAt(o: seq<string>, head: string, decls: seq<string>, ctor: string,
                   asserts: seq<string>, assigns: seq<string>, k: nat)
    requires |asserts| == |assigns| == |decls| && k < |decls|
    ensures DeclarationText(o, head, decls, ctor, asserts, assigns)[|o| + 4 + 2 * |decls| + k] == assigns[k]
  {
    var n := |decls|;
    var o2 := AppendLines(o + ["", head], decls, n) + [""] + [ctor];
    var o3 := AppendLines(o2, asserts, n);
    AppendLinesAt(o3, assigns, n, |o| + 4 + 2 * n + k);
  }

  /**
   * The serializer writes the variant index first (variants only), then the
   * `k`-th field write as line `k` of its body, and nothing else.
   */
  lemma SerializeOrder(o: seq<string>, kind: ClassKind, writes: seq<string>, k: nat)
    requires k < |writes|
    ensures var s, off := SerializeMethodText(o, kind, writes), if kind.VariantOf? then 1 else 0;
      && |s| == |o| + 3 + off + |writes|
      && s[|o| + 1] == SerializeSignature
      && (kind.VariantOf? ==> s[|o| + 2] == "serializer.serialize_variant_index(" + NatToString(kind.index) + ");")
      && s[|o| + 2 + off + k] == writes[k]
  {
    SerializeHeaderAt(o, kind, writes);
    if kind.VariantOf? {
      SerializeIndexAt(o, kind, writes);
    }
    SerializeWriteAt(o, kind, writes, k);
  }

  lemma SerializeHeaderAt(o: seq<string>, kind: ClassKind, writes: seq<string>)
    ensures SerializeMethodText(o, kind, writes)[|o| + 1] == SerializeSignature
  {
    var o1 := o + ["", SerializeSignature];
    var o2 := if kind.VariantOf? then o1 + [VariantIndexWrite(kind.index)] else o1;
    AppendLinesAt(o2, writes, |writes|, |o| + 1);
  }

  lemma SerializeIndexAt(o: seq<string>, kind: ClassKind, writes: seq<string>)
    requires kind.VariantOf?
    ensures SerializeMethodText(o, kind, writes)[|o| + 2] == VariantIndexWrite(kind.index)
  {
    var o2 := o + ["", SerializeSignature] + [VariantIndexWrite(kind.index)];
    AppendLinesAt(o2, writes, |writes|, |o| + 2);
  }

  lemma SerializeWriteAt(o: seq<string>, kind: ClassKind, writes: seq<string>, k: nat)
    requires k < |writes|
    ensures SerializeMethodText(o, kind, writes)[|o| + 2 + (if kind.VariantOf? then 1 else 0) + k] == writes[k]
  {
    var o1 := o + ["", SerializeSignature];
    var o2 := if kind.VariantOf? then o1 + [VariantIndexWrite(kind.index)] else o1;
    AppendLinesAt(o2, writes, |writes|, |o2| + k);
  }

  /**
   * The deserializer reads the `k`-th field as line `k` of its body and ends
   * with the constructor call.
   */
  lemma DeserializeOrder(o: seq<string>, header: string, loads: seq<string>, call: string, k: nat)
    requires k < |loads|
    ensures var d := DeserializeMethodText(o, header, loads, call);
      && |d| == |o| + 4 + |loads|
      && d[|o| + 1] == header
      && d[|o| + 2 + k] == loads[k]
      && d[|o| + 2 + |loads|] == call
  {
    DeserializeLineAt(o, header, loads, call, 1);
    DeserializeLineAt(o, header, loads, call, 2 + k);
  }

  lemma DeserializeLineAt(o: seq<string>, header: string, loads: seq<string>, call: string, i: nat)
    requires i < 2 + |loads|
    ensures DeserializeMethodText(o, header, loads, call)[|o| + i] == (o + ["", header] + loads)[|o| + i]
  {
    AppendLinesAt(o + ["", header], loads, |loads|, |o| + i);
  }

  /**
   * A top-level container gets the serializing entry points of every
   * encoding, in configuration order.
   */
  lemma SerializerEntryPoints(o: seq<string>, cfg: Config, k: nat, j: nat)
    requires k < |cfg.encodings| && j < 6
    ensures |o| + 6 * k + j < |AppendBlocks(o, SerializerBlocks(cfg), |cfg.encodings|)|
    ensures var e := cfg.encodings[k];
      AppendBlocks(o, SerializerBlocks(cfg), |cfg.encodings|)[|o| + 6 * k + j] == SerializeForEncoding(e, cfg.camelCase(e))[j]
  {
    AppendBlocksAt(o, SerializerBlocks(cfg), |cfg.encodings|, 6, k, j);
  }

  /**
   * A top-level container gets the deserializing entry points of every
   * encoding, in configuration order.
   */
  lemma DeserializerEntryPoints(o: seq<string>, cfg: Config, name: string, k: nat, j: nat)
    requires k < |cfg.encodings| && j < 9
    ensures |o| + 9 * k + j < |AppendBlocks(o, DeserializerBlocks(cfg, name), |cfg.encodings|)|
    ensures var e := cfg.encodings[k];
      AppendBlocks(o, DeserializerBlocks(cfg, name), |cfg.encodings|)[|o| + 9 * k + j]
        == DeserializeForEncoding(name, e, cfg.camelCase(e))[j]
  {
    AppendBlocksAt(o, DeserializerBlocks(cfg, name), |cfg.encodings|, 9, k, j);
  }

  /** Lists (sequences and fixed arrays) are compared element-wise, everything else with `==`. */
  lemma EqualityTestListsExactly(f: Named<Format>)
    ensures var t := EqualityTest(f);
      |t| > 14 && (t[..14] == " isListsEqual(" <==> f.value.Seq? || f.value.TupleArray?)
  {
    var t := EqualityTest(f);
    if !(f.value.Seq? || f.value.TupleArray?) {
      assert t[1] == 't';
    }
  }

  /**
   * After the null check, the comparisons follow one per line and then the
   * two outcomes.
   */
  lemma EqualityLayout(o: seq<string>, name: string, conj: seq<string>, k: nat)
    requires k < |conj|
    ensures var e := EqualityText(o, name, conj);
      && |e| == |o| + 8 + |conj|
      && e[|o| + 3] == "if (other == null) return false;"
      && e[|o| + 5 + k] == conj[k]
      && e[|o| + 5 + |conj|] == "return true;}"
      && e[|o| + 6 + |conj|] == "else return false;"
  {
    var o1 := o + EqualityHead(name) + [""];
    AppendLinesAt(o1, conj, |conj|, |o1| + k);
    AppendLinesAt(o1, conj, |conj|, |o| + 3);
  }

  /**
   * `hashCode` starts at 7, folds in field `k` as step `k` (31 times the
   * value so far plus the field's own hash, 0 for null), and returns the
   * value after the last field.
   */
  lemma HashFold(o: seq<string>, fields: seq<Named<Format>>, k: nat)
    requires k < |fields|
    ensures var h := HashText(o, HashSteps(fields));
      && |h| == |o| + 6 + |fields|
      && h[|o| + 3] == "int value = 7;"
      && h[|o| + 4 + k] == "value = 31 * value + (this." + fields[k].name + " != null ? this." + fields[k].name + ".hashCode : 0);"
      && h[|o| + 4 + |fields|] == "return value;"
  {
    var steps := HashSteps(fields);
    var o1 := o + ["", "@override", "int get hashCode {", "int value = 7;"];
    AppendLinesAt(o1, steps, |steps|, |o1| + k);
    AppendLinesAt(o1, steps, |steps|, |o| + 3);
  }

  /**
   * The JSON constructor's initializer `k` sits right after its header, as
   * `toJson`'s entry `k` does after its own, so fields are read back in the
   * order they are written.
   */
  lemma JsonOrder(o: seq<string>, o': seq<string>, kind: ClassKind, name: string, fields: seq<Named<Format>>,
                  actualName: string, inits: seq<string>, entries: seq<string>, k: nat)
    requires |inits| == |entries| == |fields| && k < |fields|
    ensures FromJsonText(o, kind, name, fields, false, inits)[|o| + 2 + k] == inits[k]
    ensures ToJsonText(o', kind, fields, false, actualName, entries)[|o'| + 2 + k] == entries[k]
  {
    FromJsonInitAt(o, kind, name, fields, inits, k);
    ToJsonEntryAt(o', kind, fields, actualName, entries, k);
  }

  lemma FromJsonInitAt(o: seq<string>, kind: ClassKind, name: string, fields: seq<Named<Format>>, inits: seq<string>, k: nat)
    requires |inits| == |fields| && k < |fields|
    ensures FromJsonText(o, kind, name, fields, false, inits)[|o| + 2 + k] == inits[k]
  {
    var o1 := o + ["", JsonCtorHeader(kind, name, true)];
    AppendLinesAt(o1, inits, |inits|, |o1| + k);
  }

  lemma ToJsonEntryAt(o: seq<string>, kind: ClassKind, fields: seq<Named<Format>>, actualName: string, entries: seq<string>, k: nat)
    requires k < |entries|
    ensures ToJsonText(o, kind, fields, false, actualName, entries)[|o| + 2 + k] == entries[k]
  {
    var t1 := o + ["", "dynamic toJson() => {"];
    var t2 := AppendLines(t1, entries, |entries|);
    AppendLinesAt(t1, entries, |entries|, |t1| + k);
    if kind.VariantOf? {
      assert (t2 + VariantTypeLines(kind.index, actualName) + ["};"])[|t1| + k] == t2[|t1| + k];
    }
  }

  /**
   * `toJson` writes field `k` under the field's name, and the JSON constructor
   * assigns field `k` from that same key: `,` between initializers, `;` after
   * the last.
   */
  lemma JsonFieldAgrees(fields: seq<Named<Format>>, k: nat)
    requires FieldsResolved(fields) && k < |fields| && !fields[k].value.Tuple?
    ensures var f, init, entry := fields[k], JsonInits(fields)[k], JsonEntries(fields)[k];
      var q := if f.value.Seq? then "'" else "\"";
      && init == FromJson(f) + (if k == |fields| - 1 then " ;" else " ,")
      && init[..|f.name| + 3] == f.name + " = "
      && Contains(FromJson(f), "json['" + f.name + "']")
      && entry == ToJson(f) + ","
      && entry[..|f.name| + 5] == q + f.name + q + " : "
  {
    var f := fields[k];
    JsonKeysAgree(f);
    FromJsonAssignsField(f);
    ToJsonKeyIsName(f);
    var sep := if k == |fields| - 1 then " ;" else " ,";
    assert (FromJson(f) + sep)[..|f.name| + 3] == FromJson(f)[..|f.name| + 3];
    assert (ToJson(f) + ",")[..|f.name| + 5] == ToJson(f)[..|f.name| + 5];
  }

  /**
   * A variant's `toJson` tags the map with the variant index and the
   * variant's own name, after the fields.
   */
  lemma VariantJsonTagged(o: seq<string>, base: string, index: nat, fields: seq<Named<Format>>,
                          actualName: string, entries: seq<string>)
    ensures var to := ToJsonText(o, VariantOf(base, index), fields, false, actualName, entries);
      && |to| == |o| + 5 + |entries|
      && to[|o| + 2 + |entries|] == "\"type\" : " + NatToString(index) + ","
      && to[|o| + 3 + |entries|] == "\"type_name\" : \"" + actualName + "\""
  {
  }

  // ---------------------------------------------------------------------------
  // The class as a whole: each block only extends the text written before it,
  // so what a block promises about its own lines holds of the finished class.

  /** The lines the declarations and the constructor take for `n` fields. */
  function DeclarationLength(n: nat): nat {
    if n > 0 then 5 + 3 * n else 4
  }

  lemma DeclarationExtends(o: seq<string>, head: string, decls: seq<string>, ctor: string,
                           asserts: seq<string>, assigns: seq<string>)
    requires |asserts| == |assigns| == |decls|
    ensures var d := DeclarationText(o, head, decls, ctor, asserts, assigns);
      |d| == |o| + DeclarationLength(|decls|) && o + ["", head] <= d
  {
    var n := |decls|;
    var o0 := o + ["", head];
    var o1 := AppendLines(o0, decls, n);
    var sep: seq<string> := if n > 0 then [""] else [];
    var o2 := o1 + sep;
    var o3 := AppendLines(o2 + [ctor], asserts, n);
    var o4 := AppendLines(o3, assigns, n);
    AppendLinesPrefix(o0, decls, n);
    AppendLinesPrefix(o2 + [ctor], asserts, n);
    AppendLinesPrefix(o3, assigns, n);
    assert DeclarationText(o, head, decls, ctor, asserts, assigns) == o4 + ["}"];
    assert o4 + ["}"] == o0 + (decls[..n] + sep + [ctor] + asserts[..n] + assigns[..n] + ["}"]);
    Extends(o0, decls[..n] + sep + [ctor] + asserts[..n] + assigns[..n] + ["}"]);
  }

  lemma SerializeMethodShape(x: seq<string>, kind: ClassKind, writes: seq<string>)
    ensures var s, off := SerializeMethodText(x, kind, writes), if kind.VariantOf? then 1 else 0;
      && |s| == |x| + 3 + off + |writes| && x <= s
      && s[|x| + 1] == SerializeSignature
      && (kind.VariantOf? ==> s[|x| + 2] == VariantIndexWrite(kind.index))
      && forall k :: 0 <= k < |writes| ==> s[|x| + 2 + off + k] == writes[k]
  {
    var off := if kind.VariantOf? then 1 else 0;
    SerializeHeaderAt(x, kind, writes);
    if kind.VariantOf? {
      SerializeIndexAt(x, kind, writes);
    }
    forall k | 0 <= k < |writes| ensures SerializeMethodText(x, kind, writes)[|x| + 2 + off + k] == writes[k] {
      SerializeWriteAt(x, kind, writes, k);
    }
    SerializeMethodExtends(x, kind, writes);
  }

  lemma SerializeMethodLength(x: seq<string>, kind: ClassKind, writes: seq<string>)
    ensures |SerializeMethodText(x, kind, writes)| == |x| + 3 + (if kind.VariantOf? then 1 else 0) + |writes|
  {
  }

  lemma SerializeMethodExtends(x: seq<string>, kind: ClassKind, writes: seq<string>)
    ensures x <= SerializeMethodText(x, kind, writes)
  {
    var o1 := x + ["", SerializeSignature];
    var o2 := if kind.VariantOf? then o1 + [VariantIndexWrite(kind.index)] else o1;
    var o3 := AppendLines(o2, writes, |writes|);
    Extends(x, ["", SerializeSignature]);
    if kind.VariantOf? {
      Extends(o1, [VariantIndexWrite(kind.index)]);
      PrefixTrans(x, o1, o2);
    }
    AppendLinesExtends(o2, writes, |writes|);
    PrefixTrans(x, o2, o3);
    Extends(o3, ["}"]);
    PrefixTrans(x, o3, o3 + ["}"]);
  }

  lemma DeserializeMethodShape(x: seq<string>, header: string, loads: seq<string>, call: string)
    ensures var d := DeserializeMethodText(x, header, loads, call);
      && |d| == |x| + 4 + |loads| && x <= d
      && d[|x| + 1] == header
      && (forall k :: 0 <= k < |loads| ==> d[|x| + 2 + k] == loads[k])
      && d[|x| + 2 + |loads|] == call
  {
    DeserializeLineAt(x, header, loads, call, 1);
    forall k | 0 <= k < |loads| ensures DeserializeMethodText(x, header, loads, call)[|x| + 2 + k] == loads[k] {
      DeserializeLineAt(x, header, loads, call, 2 + k);
    }
    AppendLinesPrefix(x + ["", header], loads, |loads|);
    assert DeserializeMethodText(x, header, loads, call) == x + (["", header] + loads + [call, "}"]);
    Extends(x, ["", header] + loads + [call, "}"]);
  }

  lemma CodecExtends(x: seq<string>, cfg: Config, kind: ClassKind, name: string,
                     writes: seq<string>, loads: seq<string>, call: string)
    ensures x <= CodecText(x, cfg, kind, name, writes, loads, call)
  {
    if cfg.serialization {
      CodecStages(x, cfg, kind, name, writes, loads, call);
    }
  }

  /** The codec only extends the text, by its two methods and, on a container, its entry points. */
  lemma CodecStages(x: seq<string>, cfg: Config, kind: ClassKind, name: string,
                    writes: seq<string>, loads: seq<string>, call: string)
    requires cfg.serialization
    ensures var e := if kind.TopLevel? then |cfg.encodings| else 0;
      var s := SerializeMethodText(x, kind, writes);
      var o2 := if kind.TopLevel? then AppendBlocks(s, SerializerBlocks(cfg), |cfg.encodings|) else s;
      var o3 := DeserializeMethodText(o2, DeserializeHeader(kind, name), loads, call);
      var c := CodecText(x, cfg, kind, name, writes, loads, call);
      && s <= o2 && |o2| == |s| + 6 * e
      && o3 <= c && |c| == |o3| + 9 * e
      && s <= c && x <= c
  {
    var e := |cfg.encodings|;
    var s := SerializeMethodText(x, kind, writes);
    SerializeMethodExtends(x, kind, writes);
    var o2 := if kind.TopLevel? then AppendBlocks(s, SerializerBlocks(cfg), e) else s;
    var o3 := DeserializeMethodText(o2, DeserializeHeader(kind, name), loads, call);
    DeserializeMethodShape(o2, DeserializeHeader(kind, name), loads, call);
    if kind.TopLevel? {
      assert Uniform(SerializerBlocks(cfg), e, 6);
      assert Uniform(DeserializerBlocks(cfg, name), e, 9);
      AppendBlocksLength(s, SerializerBlocks(cfg), e, 6);
      AppendBlocksPrefix(s, SerializerBlocks(cfg), 0, e);
      AppendBlocksLength(o3, DeserializerBlocks(cfg, name), e, 9);
      AppendBlocksPrefix(o3, DeserializerBlocks(cfg, name), 0, e);
    }
    var c := CodecText(x, cfg, kind, name, writes, loads, call);
    PrefixTrans(s, o2, o3);
    PrefixTrans(s, o3, c);
    SerializeMethodExtends(x, kind, writes);
    PrefixTrans(x, s, c);
  }

  /**
   * Field `k`: `serialize` writes it on line `k` of its body, after the
   * variant index of a variant; stated of any text `t` that extends the
   * codec.
   */
  lemma CodecSerializeAt(x: seq<string>, t: seq<string>, cfg: Config, kind: ClassKind, name: string,
                         writes: seq<string>, loads: seq<string>, call: string, k: nat)
    requires cfg.serialization && k < |writes| && CodecText(x, cfg, kind, name, writes, loads, call) <= t
    ensures var off := if kind.VariantOf? then 1 else 0;
      && |x| + 2 + off + k < |t|
      && t[|x| + 1] == SerializeSignature
      && (kind.VariantOf? ==> t[|x| + 2] == VariantIndexWrite(kind.index))
      && t[|x| + 2 + off + k] == writes[k]
  {
    var s := SerializeMethodText(x, kind, writes);
    CodecStages(x, cfg, kind, name, writes, loads, call);
    SerializeMethodShape(x, kind, writes);
    CodecSerializeIn(x, s, CodecText(x, cfg, kind, name, writes, loads, call), t);
    PrefixAt(s, t, |x| + 1);
    if kind.VariantOf? {
      PrefixAt(s, t, |x| + 2);
    }
    PrefixAt(s, t, |x| + 2 + (if kind.VariantOf? then 1 else 0) + k);
  }

  lemma CodecSerializeIn(x: seq<string>, s: seq<string>, c: seq<string>, t: seq<string>)
    requires s <= c && c <= t
    ensures s <= t
  {
    PrefixTrans(s, c, t);
  }

  /**
   * The line after which `deserialize` starts, in a codec written after
   * line `x` with `n` field writes.
   */
  function DeserializeStart(x: nat, cfg: Config, kind: ClassKind, n: nat): nat {
    x + 3 + (if kind.VariantOf? then 1 else 0) + n + (if kind.TopLevel? then 6 * |cfg.encodings| else 0)
  }

  /**
   * Field `k`: `deserialize` (`load` of a variant) reads it on line `k` of its
   * body, which ends with the constructor call; stated of any text `t` that
   * extends the codec.
   */
  lemma CodecDeserializeAt(x: seq<string>, t: seq<string>, cfg: Config, kind: ClassKind, name: string,
                           writes: seq<string>, loads: seq<string>, call: string, d: nat, k: nat)
    requires cfg.serialization && k < |loads| && CodecText(x, cfg, kind, name, writes, loads, call) <= t
    requires d == DeserializeStart(|x|, cfg, kind, |writes|)
    ensures && d + 2 + |loads| < |t|
      && t[d + 1] == DeserializeHeader(kind, name)
      && t[d + 2 + k] == loads[k]
      && t[d + 2 + |loads|] == call
  {
    var e := |cfg.encodings|;
    var s := SerializeMethodText(x, kind, writes);
    var o2 := if kind.TopLevel? then AppendBlocks(s, SerializerBlocks(cfg), e) else s;
    var o3 := DeserializeMethodText(o2, DeserializeHeader(kind, name), loads, call);
    CodecStages(x, cfg, kind, name, writes, loads, call);
    SerializeMethodLength(x, kind, writes);
    DeserializeOrder(o2, DeserializeHeader(kind, name), loads, call, k);
    CodecSerializeIn(x, o3, CodecText(x, cfg, kind, name, writes, loads, call), t);
    assert |o2| == d;
    PrefixAt(o3, t, d + 1);
    PrefixAt(o3, t, d + 2 + k);
    PrefixAt(o3, t, d + 2 + |loads|);
  }

  /**
   * A top-level container carries the deserializing entry point of every
   * configured encoding as one run of lines after its own `deserialize`.
   */
  lemma DeserializerEntryAt(x: seq<string>, cfg: Config, name: string,
                            writes: seq<string>, loads: seq<string>, call: string, j: nat)
    requires cfg.serialization && j < |cfg.encodings|
    ensures var c := CodecText(x, cfg, TopLevel, name, writes, loads, call);
      exists p :: |x| < p && RunAt(c, p, DeserializeForEncoding(name, cfg.encodings[j], cfg.camelCase(cfg.encodings[j])))
  {
    var e := |cfg.encodings|;
    var s := SerializeMethodText(x, TopLevel, writes);
    SerializeMethodLength(x, TopLevel, writes);
    var db := DeserializerBlocks(cfg, name);
    var o3 := DeserializeMethodText(AppendBlocks(s, SerializerBlocks(cfg), e), DeserializeHeader(TopLevel, name), loads, call);
    EntryRun(x, s, SerializerBlocks(cfg), DeserializeHeader(TopLevel, name), loads, call, db, e, j);
    DeserializerBlockAt(cfg, name, j);
    assert RunAt(CodecText(x, cfg, TopLevel, name, writes, loads, call), |AppendBlocks(o3, db, j)|, db[j]);
  }

  lemma DeserializerBlockAt(cfg: Config, name: string, j: nat)
    requires j < |cfg.encodings|
    ensures DeserializerBlocks(cfg, name)[j] == DeserializeForEncoding(name, cfg.encodings[j], cfg.camelCase(cfg.encodings[j]))
  {
  }

  lemma EntryRun(x: seq<string>, s: seq<string>, sb: seq<seq<string>>, header: string, loads: seq<string>, call: string,
                 db: seq<seq<string>>, e: nat, j: nat)
    requires e <= |sb| && e <= |db| && j < e && |x| < |s|
    ensures var o3 := DeserializeMethodText(AppendBlocks(s, sb, e), header, loads, call);
      var p := |AppendBlocks(o3, db, j)|;
      |x| < p && RunAt(AppendBlocks(o3, db, e), p, db[j])
  {
    var o2 := AppendBlocks(s, sb, e);
    var o3 := DeserializeMethodText(o2, header, loads, call);
    var c := AppendBlocks(o3, db, e);
    AppendBlocksPrefix(s, sb, 0, e);
    AppendBlocksPrefix(o3, db, 0, j);
    AppendBlocksAfter(o3, db, j, e);
    var q := AppendBlocks(o3, db, j);
    RunAfter(q, db[j], c);
    assert |x| < |q|;
  }

  lemma EqualityExtends(x: seq<string>, name: string, conjuncts: seq<string>)
    ensures x + EqualityHead(name) <= EqualityText(x, name, conjuncts)
  {
    var o1 := x + EqualityHead(name);
    Extends(x, EqualityHead(name));
    if |conjuncts| > 0 {
      var o2 := AppendLines(o1 + [""], conjuncts, |conjuncts|);
      Extends(o1, [""]);
      AppendLinesExtends(o1 + [""], conjuncts, |conjuncts|);
      PrefixTrans(o1, o1 + [""], o2);
      Extends(o2, ["return true;}", "else return false;", "}"]);
      assert EqualityText(x, name, conjuncts) == o2 + ["return true;}", "else return false;", "}"];
      PrefixTrans(o1, o2, EqualityText(x, name, conjuncts));
    } else {
      Extends(o1, ["return true;", "}"]);
      assert EqualityText(x, name, conjuncts) == o1 + ["return true;", "}"];
    }
  }

  lemma HashExtends(x: seq<string>, steps: seq<string>)
    ensures x <= HashText(x, steps)
  {
    var o1 := x + ["", "@override", "int get hashCode {", "int value = 7;"];
    var o2 := AppendLines(o1, steps, |steps|);
    Extends(x, ["", "@override", "int get hashCode {", "int value = 7;"]);
    AppendLinesExtends(o1, steps, |steps|);
    Extends(o2, ["return value;", "}"]);
    PrefixTrans(x, o1, o2);
    PrefixTrans(x, o2, HashText(x, steps));
  }

  lemma FromJsonExtends(x: seq<string>, kind: ClassKind, name: string, fields: seq<Named<Format>>,
                        redefine: bool, inits: seq<string>)
    ensures x <= FromJsonText(x, kind, name, fields, redefine, inits)
  {
    var o1 := x + ["", JsonCtorHeader(kind, name, |fields| > 0)];
    Extends(x, ["", JsonCtorHeader(kind, name, |fields| > 0)]);
    if |fields| > 0 {
      if redefine {
        Extends(o1, [fields[0].name + " = json ;"]);
      } else {
        AppendLinesExtends(o1, inits, |inits|);
      }
      PrefixTrans(x, o1, FromJsonText(x, kind, name, fields, redefine, inits));
    }
  }

  lemma ToJsonExtends(x: seq<string>, kind: ClassKind, fields: seq<Named<Format>>, redefine: bool,
                      actualName: string, entries: seq<string>)
    ensures x <= ToJsonText(x, kind, fields, redefine, actualName, entries)
  {
    if !redefine {
      var o0 := x + ["", "dynamic toJson() => {"];
      var o1 := AppendLines(o0, entries, |entries|);
      var tag: seq<string> := if kind.VariantOf? then VariantTypeLines(kind.index, actualName) else [];
      Extends(x, ["", "dynamic toJson() => {"]);
      AppendLinesExtends(o0, entries, |entries|);
      PrefixTrans(x, o0, o1);
      Extends(o1, tag + ["};"]);
      assert ToJsonText(x, kind, fields, redefine, actualName, entries) == o1 + (tag + ["};"]);
      PrefixTrans(x, o1, ToJsonText(x, kind, fields, redefine, actualName, entries));
    } else if |fields| > 0 {
      Extends(x, ["", "dynamic toJson() => " + fields[0].name + ";"]);
    }
  }

  lemma TailExtends(o2: seq<string>, kind: ClassKind, name: string, fields: seq<Named<Format>>,
                    redefine: bool, actualName: string)
    requires FieldsResolved(fields)
    ensures o2 + EqualityHead(name) <= ClassTail(o2, kind, name, fields, redefine, actualName)
  {
    var o3 := EqualityText(o2, name, EqualityLines(fields));
    var o4 := HashText(o3, HashSteps(fields));
    var o5 := FromJsonText(o4, kind, name, fields, redefine, JsonInits(fields));
    var t := ToJsonText(o5, kind, fields, redefine, actualName, JsonEntries(fields));
    EqualityExtends(o2, name, EqualityLines(fields));
    HashExtends(o3, HashSteps(fields));
    FromJsonExtends(o4, kind, name, fields, redefine, JsonInits(fields));
    ToJsonExtends(o5, kind, fields, redefine, actualName, JsonEntries(fields));
    Extends(t, ["}"]);
    var h := o2 + EqualityHead(name);
    PrefixTrans(h, o3, o4);
    PrefixTrans(h, o4, o5);
    PrefixTrans(h, o5, t);
    PrefixTrans(h, t, t + ["}"]);
  }

  /**
   * The frame of a class: the declarations take `DeclarationLength` lines
   * after the head, and the codec after them is kept, line for line, by the
   * rest of the class.
   */
  lemma ClassFrame(o: seq<string>, cfg: Config, kind: ClassKind, name: string, fields: seq<Named<Format>>,
                   redefine: bool, actualName: string)
    requires FieldsResolved(fields)
    ensures var o1 := ClassDeclarations(o, kind, name, fields);
      && |o1| == |o| + DeclarationLength(|fields|) && o + ["", ClassHead(kind, name)] <= o1
      && o1 <= ClassCodec(o1, cfg, kind, name, fields)
      && ClassCodec(o1, cfg, kind, name, fields) + EqualityHead(name)
           <= ClassOutput(o, cfg, kind, name, fields, redefine, actualName)
  {
    var o1 := ClassDeclarations(o, kind, name, fields);
    DeclarationExtends(o, ClassHead(kind, name), FieldDecls(fields), CtorHeader(name, fields),
                       NonNullAsserts(fields), FieldAssigns(fields));
    CodecExtends(o1, cfg, kind, name, FieldWrites(cfg.mangle, fields), FieldReads(cfg.mangle, fields),
                 ConstructorCall(name, fields));
    TailExtends(ClassCodec(o1, cfg, kind, name, fields), kind, name, fields, redefine, actualName);
  }

  lemma DeclarationsLength(o: seq<string>, kind: ClassKind, name: string, fields: seq<Named<Format>>)
    requires FieldsResolved(fields)
    ensures |ClassDeclarations(o, kind, name, fields)| == |o| + DeclarationLength(|fields|)
  {
    DeclarationExtends(o, ClassHead(kind, name), FieldDecls(fields), CtorHeader(name, fields),
                       NonNullAsserts(fields), FieldAssigns(fields));
  }

  /** The codec of a class is kept, line for line, by the whole class. */
  lemma CodecInClass(o: seq<string>, cfg: Config, kind: ClassKind, name: string, fields: seq<Named<Format>>,
                     redefine: bool, actualName: string)
    requires FieldsResolved(fields)
    ensures ClassCodec(ClassDeclarations(o, kind, name, fields), cfg, kind, name, fields)
              <= ClassOutput(o, cfg, kind, name, fields, redefine, actualName)
  {
    var cd := ClassCodec(ClassDeclarations(o, kind, name, fields), cfg, kind, name, fields);
    ClassFrame(o, cfg, kind, name, fields, redefine, actualName);
    Extends(cd, EqualityHead(name));
    PrefixTrans(cd, cd + EqualityHead(name), ClassOutput(o, cfg, kind, name, fields, redefine, actualName));
  }

  // ---------------------------------------------------------------------------
  // What the whole class promises.

  /**
   * Field `k` as text `t` declares it, when `t` holds a class with fields
   * `fields` right after `o`: declared on line `k` after the head with its
   * Dart type and name, passed to the constructor as parameter `k` under the
   * same declaration, asserted non-null on line `k` of the constructor and
   * assigned to its field on line `k` after the asserts.
   */
  predicate DeclaresField(t: seq<string>, o: seq<string>, kind: ClassKind, name: string, fields: seq<Named<Format>>, k: nat)
    requires FieldsResolved(fields) && k < |fields|
  {
    var n := |fields|;
    && |o| + 4 + 2 * n + k < |t|
    && t[|o| + 1] == ClassHead(kind, name)
    && t[|o| + 2 + k] == QuoteType(fields[k].value) + " " + fields[k].name + ";"
    && t[|o| + 3 + n] == name + "(" + Join(", ", CtorParams(fields)) + ") {"
    && t[|o| + 2 + k] == CtorParams(fields)[k] + ";"
    && t[|o| + 4 + n + k] == "assert (" + fields[k].name + " != null);"
    && t[|o| + 4 + 2 * n + k] == "this." + fields[k].name + " = " + fields[k].name + ";"
  }

  /** Every field of a class is declared, constructed, asserted and assigned in field order. */
  lemma DeclarationsFollowFields(o: seq<string>, cfg: Config, kind: ClassKind, name: string,
                                 fields: seq<Named<Format>>, redefine: bool, actualName: string, k: nat)
    requires FieldsResolved(fields) && k < |fields|
    ensures DeclaresField(ClassOutput(o, cfg, kind, name, fields, redefine, actualName), o, kind, name, fields, k)
  {
    var c := ClassOutput(o, cfg, kind, name, fields, redefine, actualName);
    DeclarationsInClass(o, cfg, kind, name, fields, redefine, actualName);
    DeclaredFieldAt(o, c, kind, name, fields, k);
  }

  lemma DeclarationsInClass(o: seq<string>, cfg: Config, kind: ClassKind, name: string, fields: seq<Named<Format>>,
                            redefine: bool, actualName: string)
    requires FieldsResolved(fields)
    ensures ClassDeclarations(o, kind, name, fields) <= ClassOutput(o, cfg, kind, name, fields, redefine, actualName)
  {
    var o1 := ClassDeclarations(o, kind, name, fields);
    ClassFrame(o, cfg, kind, name, fields, redefine, actualName);
    CodecInClass(o, cfg, kind, name, fields, redefine, actualName);
    PrefixTrans(o1, ClassCodec(o1, cfg, kind, name, fields), ClassOutput(o, cfg, kind, name, fields, redefine, actualName));
  }

  lemma DeclaredFieldAt(o: seq<string>, t: seq<string>, kind: ClassKind, name: string, fields: seq<Named<Format>>, k: nat)
    requires FieldsResolved(fields) && k < |fields| && ClassDeclarations(o, kind, name, fields) <= t
    ensures DeclaresField(t, o, kind, name, fields, k)
  {
    var n := |fields|;
    var o1 := ClassDeclarations(o, kind, name, fields);
    DeclarationOrder(o, ClassHead(kind, name), FieldDecls(fields), CtorHeader(name, fields),
                     NonNullAsserts(fields), FieldAssigns(fields), k);
    PrefixAt(o1, t, |o| + 1);
    PrefixAt(o1, t, |o| + 2 + k);
    PrefixAt(o1, t, |o| + 3 + n);
    PrefixAt(o1, t, |o| + 4 + n + k);
    PrefixAt(o1, t, |o| + 4 + 2 * n + k);
  }

  /**
   * Field `k` in `serialize`, in text `t` where the method starts after line
   * `s`: the variant index comes first on a variant, then field `k` is
   * written on line `k` of the body.
   */
  predicate WritesField(t: seq<string>, s: nat, cfg: Config, kind: ClassKind, fields: seq<Named<Format>>, k: nat)
    requires k < |fields|
  {
    && SerializeBodyStart(s, kind) + k < |t|
    && t[s + 1] == SerializeSignature
    && (kind.VariantOf? ==> t[s + 2] == VariantIndexWrite(kind.index))
    && t[SerializeBodyStart(s, kind) + k] == SerializeValue(cfg.mangle, fields[k].name, fields[k].value)
  }

  /** The line on which the field writes of `serialize` start, when the method starts after line `s`. */
  function SerializeBodyStart(s: nat, kind: ClassKind): nat {
    s + 2 + (if kind.VariantOf? then 1 else 0)
  }

  /**
   * Field `k` in `deserialize` (`load` of a variant), in text `t` where the
   * method starts after line `d`: field `k` is read into a local of its own
   * name on line `k` of the body, and the body ends by passing the locals to
   * the constructor in field order.
   */
  predicate ReadsField(t: seq<string>, d: nat, cfg: Config, kind: ClassKind, name: string, fields: seq<Named<Format>>, k: nat)
    requires k < |fields|
  {
    && d + 2 + |fields| < |t|
    && t[d + 1] == DeserializeHeader(kind, name)
    && t[d + 2 + k] == "var " + fields[k].name + " = " + DeserializeExpr(cfg.mangle, fields[k].value) + ";"
    && t[d + 2 + |fields|] == "return new " + name + "(" + Join(",", FieldNames(fields)) + ");"
    && FieldNames(fields)[k] == fields[k].name
  }

  /**
   * `serialize` follows the fields: after the declarations of the class,
   * line `k` of its body (after the variant index of a variant) writes field
   * `k`.
   */
  lemma SerializeFollowsFields(o: seq<string>, cfg: Config, kind: ClassKind, name: string,
                               fields: seq<Named<Format>>, redefine: bool, actualName: string, k: nat)
    requires FieldsResolved(fields) && cfg.serialization && k < |fields|
    ensures WritesField(ClassOutput(o, cfg, kind, name, fields, redefine, actualName),
                        |ClassDeclarations(o, kind, name, fields)|, cfg, kind, fields, k)
    ensures |ClassDeclarations(o, kind, name, fields)| == |o| + DeclarationLength(|fields|)
  {
    var o1 := ClassDeclarations(o, kind, name, fields);
    var c := ClassOutput(o, cfg, kind, name, fields, redefine, actualName);
    DeclarationsLength(o, kind, name, fields);
    CodecInClass(o, cfg, kind, name, fields, redefine, actualName);
    CodecWritesFieldAt(o1, c, cfg, kind, name, fields, |o1|, k);
  }

  /**
   * `deserialize` (`load` of a variant) mirrors `serialize`: line `k` of its
   * body reads field `k` back into a local of the field's name, through the
   * same route that wrote it (primitive call, the field type's own method or
   * a shared helper), and the body ends by passing the locals to the
   * constructor in field order.
   */
  lemma DeserializeMirrorsFields(o: seq<string>, cfg: Config, kind: ClassKind, name: string,
                                 fields: seq<Named<Format>>, redefine: bool, actualName: string, k: nat)
    requires FieldsResolved(fields) && cfg.serialization && k < |fields|
    ensures ReadsField(ClassOutput(o, cfg, kind, name, fields, redefine, actualName),
                       DeserializeStart(|ClassDeclarations(o, kind, name, fields)|, cfg, kind, |fields|), cfg, kind, name, fields, k)
    ensures SameRoute(cfg.mangle, fields[k].name, fields[k].value,
                      SerializeValue(cfg.mangle, fields[k].name, fields[k].value), DeserializeExpr(cfg.mangle, fields[k].value))
  {
    var o1 := ClassDeclarations(o, kind, name, fields);
    var c := ClassOutput(o, cfg, kind, name, fields, redefine, actualName);
    CodecInClass(o, cfg, kind, name, fields, redefine, actualName);
    CodecReadsFieldAt(o1, c, cfg, kind, name, fields, DeserializeStart(|o1|, cfg, kind, |fields|), k);
    SerializeDeserializeAgree(cfg.mangle, fields[k].name, fields[k].value);
  }

  lemma CodecWritesFieldAt(x: seq<string>, t: seq<string>, cfg: Config, kind: ClassKind, name: string,
                           fields: seq<Named<Format>>, s: nat, k: nat)
    requires cfg.serialization && k < |fields| && ClassCodec(x, cfg, kind, name, fields) <= t && s == |x|
    ensures WritesField(t, s, cfg, kind, fields, k)
  {
    WritesFieldIn(x, t, cfg, kind, name, fields, FieldWrites(cfg.mangle, fields), FieldReads(cfg.mangle, fields),
                  ConstructorCall(name, fields), k);
  }

  lemma WritesFieldIn(x: seq<string>, t: seq<string>, cfg: Config, kind: ClassKind, name: string,
                      fields: seq<Named<Format>>, writes: seq<string>, loads: seq<string>, call: string, k: nat)
    requires cfg.serialization && k < |fields| && k < |writes|
    requires writes[k] == SerializeValue(cfg.mangle, fields[k].name, fields[k].value)
    requires CodecText(x, cfg, kind, name, writes, loads, call) <= t
    ensures WritesField(t, |x|, cfg, kind, fields, k)
  {
    CodecSerializeAt(x, t, cfg, kind, name, writes, loads, call, k);
  }

  lemma CodecReadsFieldAt(x: seq<string>, t: seq<string>, cfg: Config, kind: ClassKind, name: string,
                          fields: seq<Named<Format>>, d: nat, k: nat)
    requires cfg.serialization && k < |fields| && ClassCodec(x, cfg, kind, name, fields) <= t
    requires d == DeserializeStart(|x|, cfg, kind, |fields|)
    ensures ReadsField(t, d, cfg, kind, name, fields, k)
  {
    var writes := FieldWrites(cfg.mangle, fields);
    ReadsFieldIn(x, t, cfg, kind, name, fields, writes, FieldReads(cfg.mangle, fields), ConstructorCall(name, fields),
                 d, k);
  }

  lemma ReadsFieldIn(x: seq<string>, t: seq<string>, cfg: Config, kind: ClassKind, name: string,
                     fields: seq<Named<Format>>, writes: seq<string>, loads: seq<string>, call: string, d: nat, k: nat)
    requires cfg.serialization && k < |fields| && |loads| == |fields|
    requires loads[k] == "var " + fields[k].name + " = " + DeserializeExpr(cfg.mangle, fields[k].value) + ";"
    requires call == "return new " + name + "(" + Join(",", FieldNames(fields)) + ");"
    requires FieldNames(fields)[k] == fields[k].name
    requires CodecText(x, cfg, kind, name, writes, loads, call) <= t
    requires d == DeserializeStart(|x|, cfg, kind, |writes|)
    ensures ReadsField(t, d, cfg, kind, name, fields, k)
  {
    CodecDeserializeAt(x, t, cfg, kind, name, writes, loads, call, d, k);
  }

  /**
   * A container class carries, after its declarations, the deserializing
   * entry point of every configured encoding as one run of lines, which
   * reads one value and throws when input is left unread.
   */
  lemma TrailingBytesRejected(o: seq<string>, cfg: Config, name: string, fields: seq<Named<Format>>,
                              redefine: bool, actualName: string, j: nat)
    requires FieldsResolved(fields) && cfg.serialization && j < |cfg.encodings|
    ensures var c := ClassOutput(o, cfg, TopLevel, name, fields, redefine, actualName);
      exists p :: |ClassDeclarations(o, TopLevel, name, fields)| < p
        && RunAt(c, p, DeserializeForEncoding(name, cfg.encodings[j], cfg.camelCase(cfg.encodings[j])))
  {
    var o1 := ClassDeclarations(o, TopLevel, name, fields);
    var cd := ClassCodec(o1, cfg, TopLevel, name, fields);
    var c := ClassOutput(o, cfg, TopLevel, name, fields, redefine, actualName);
    var block := DeserializeForEncoding(name, cfg.encodings[j], cfg.camelCase(cfg.encodings[j]));
    CodecInClass(o, cfg, TopLevel, name, fields, redefine, actualName);
    DeserializerEntryAt(o1, cfg, name, FieldWrites(cfg.mangle, fields), FieldReads(cfg.mangle, fields),
                        ConstructorCall(name, fields), j);
    var p :| |o1| < p && RunAt(cd, p, block);
    RunInPrefix(cd, c, p, block);
  }

  /**
   * Without serialization the configuration leaves no trace on a class:
   * two such configurations give the same text, and the head of
   * `operator ==`, not `serialize`, follows the declarations.
   */
  lemma NoCodecWithoutSerialization(o: seq<string>, c1: Config, c2: Config, kind: ClassKind, name: string,
                                    fields: seq<Named<Format>>, redefine: bool, actualName: string)
    requires FieldsResolved(fields) && !c1.serialization && !c2.serialization
    ensures ClassOutput(o, c1, kind, name, fields, redefine, actualName)
         == ClassOutput(o, c2, kind, name, fields, redefine, actualName)
    ensures RunAt(ClassOutput(o, c1, kind, name, fields, redefine, actualName),
                  |ClassDeclarations(o, kind, name, fields)|, EqualityHead(name))
  {
    var o1 := ClassDeclarations(o, kind, name, fields);
    SameTailWithoutCodec(o1, c1, c2, kind, name, fields, redefine, actualName);
    TailExtends(o1, kind, name, fields, redefine, actualName);
    RunAfter(o1, EqualityHead(name), ClassTail(o1, kind, name, fields, redefine, actualName));
  }

  lemma SameTailWithoutCodec(o1: seq<string>, c1: Config, c2: Config, kind: ClassKind, name: string,
                             fields: seq<Named<Format>>, redefine: bool, actualName: string)
    requires FieldsResolved(fields) && !c1.serialization && !c2.serialization
    ensures ClassCodec(o1, c1, kind, name, fields) == o1 == ClassCodec(o1, c2, kind, name, fields)
  {
  }

  // ---------------------------------------------------------------------------
  // What a variant's class and a newtype's class show of themselves.

  /** A class opens, after `o`, with a blank line and its head. */
  lemma ClassOpens(o: seq<string>, cfg: Config, kind: ClassKind, name: string, fields: seq<Named<Format>>,
                   redefine: bool, actualName: string)
    requires FieldsResolved(fields)
    ensures o + ["", ClassHead(kind, name)] <= ClassOutput(o, cfg, kind, name, fields, redefine, actualName)
  {
    ClassFrame(o, cfg, kind, name, fields, redefine, actualName);
    DeclarationsInClass(o, cfg, kind, name, fields, redefine, actualName);
    PrefixTrans(o + ["", ClassHead(kind, name)], ClassDeclarations(o, kind, name, fields),
                ClassOutput(o, cfg, kind, name, fields, redefine, actualName));
  }

  /** A class only adds to the text before it. */
  lemma ClassExtends(o: seq<string>, cfg: Config, kind: ClassKind, name: string, fields: seq<Named<Format>>,
                     redefine: bool, actualName: string)
    requires FieldsResolved(fields)
    ensures o <= ClassOutput(o, cfg, kind, name, fields, redefine, actualName)
  {
    ClassOpens(o, cfg, kind, name, fields, redefine, actualName);
    Extends(o, ["", ClassHead(kind, name)]);
    PrefixTrans(o, o + ["", ClassHead(kind, name)], ClassOutput(o, cfg, kind, name, fields, redefine, actualName));
  }

  /** In text `t`, a variant's `serialize` starts after line `s` and writes `index` first. */
  predicate WritesIndex(t: seq<string>, s: nat, index: nat) {
    s + 2 < |t| && t[s + 1] == SerializeSignature && t[s + 2] == VariantIndexWrite(index)
  }

  lemma CodecIndexAt(x: seq<string>, t: seq<string>, cfg: Config, kind: ClassKind, name: string,
                     writes: seq<string>, loads: seq<string>, call: string)
    requires cfg.serialization && kind.VariantOf? && CodecText(x, cfg, kind, name, writes, loads, call) <= t
    ensures WritesIndex(t, |x|, kind.index)
  {
    var s := SerializeMethodText(x, kind, writes);
    CodecStages(x, cfg, kind, name, writes, loads, call);
    SerializeMethodShape(x, kind, writes);
    CodecSerializeIn(x, s, CodecText(x, cfg, kind, name, writes, loads, call), t);
    PrefixAt(s, t, |x| + 1);
    PrefixAt(s, t, |x| + 2);
  }

  lemma ClassWritesIndex(x: seq<string>, t: seq<string>, cfg: Config, kind: ClassKind, name: string,
                         fields: seq<Named<Format>>, s: nat)
    requires cfg.serialization && kind.VariantOf? && ClassCodec(x, cfg, kind, name, fields) <= t && s == |x|
    ensures WritesIndex(t, s, kind.index)
  {
    CodecIndexAt(x, t, cfg, kind, name, FieldWrites(cfg.mangle, fields), FieldReads(cfg.mangle, fields),
                 ConstructorCall(name, fields));
  }

  /**
   * The class of a variant ends with the `type` and `type_name` entries of
   * its `toJson`, then the closing of the map and of the class.
   */
  lemma VariantTailTagged(o2: seq<string>, base: string, index: nat, name: string, fields: seq<Named<Format>>,
                          actualName: string)
    requires FieldsResolved(fields)
    ensures var t := ClassTail(o2, VariantOf(base, index), name, fields, false, actualName);
      && 6 <= |t|
      && t[|t| - 4] == "\"type\" : " + NatToString(index) + ","
      && t[|t| - 3] == "\"type_name\" : \"" + actualName + "\""
  {
    var kind := VariantOf(base, index);
    var o5 := FromJsonText(HashText(EqualityText(o2, name, EqualityLines(fields)), HashSteps(fields)),
                           kind, name, fields, false, JsonInits(fields));
    VariantJsonTagged(o5, base, index, fields, actualName, JsonEntries(fields));
  }

  /**
   * A redefining (newtype) container reads and writes JSON as its one field:
   * its class ends with `fromJson` initializing the field from the whole
   * JSON value and `toJson` returning the field itself.
   */
  lemma RedefinedTailBare(o2: seq<string>, name: string, fields: seq<Named<Format>>)
    requires FieldsResolved(fields) && |fields| > 0
    ensures var t := ClassTail(o2, TopLevel, name, fields, true, name);
      && 6 <= |t|
      && t[|t| - 6..] == ["", name + ".fromJson(dynamic json) :", fields[0].name + " = json ;",
                          "", "dynamic toJson() => " + fields[0].name + ";", "}"]
  {
    var o4 := HashText(EqualityText(o2, name, EqualityLines(fields)), HashSteps(fields));
    var t := ClassTail(o2, TopLevel, name, fields, true, name);
    var last := ["", name + ".fromJson(dynamic json) :", fields[0].name + " = json ;",
                 "", "dynamic toJson() => " + fields[0].name + ";", "}"];
    assert t == o4 + last;
  }
}
