/**
 * The text `output_enum_container` writes for an enum: an abstract base class
 * whose static `deserialize` and `fromJson` read the variant tag and dispatch
 * to the variant's class, followed by one class per variant, in tag order,
 * each written by `output_struct_or_variant_container`.
 */
module EnumText {
  import opened Text
  import opened Formats
  import opened Containers
  import opened ClassText

  /** The class a variant is emitted as: the enum's name, the variant's, `Item`. */
  function VariantClassName(base: string, v: Named<VariantFormat>): string {
    base + v.name + "Item"
  }

  /** One `case` of a dispatch switch: the tag, then the variant class's loader. */
  function CaseLine(base: string, tag: nat, v: Named<VariantFormat>, call: string): string {
    "case " + NatToString(tag) + ": return " + VariantClassName(base, v) + "." + call + ";"
  }

  function CaseLines(base: string, vs: Variants, call: string): (lines: seq<string>)
    ensures |lines| == |vs|
    ensures forall i :: 0 <= i < |vs| ==> lines[i] == CaseLine(base, vs[i].0, vs[i].1, call)
  {
    seq(|vs|, i requires 0 <= i < |vs| => CaseLine(base, vs[i].0, vs[i].1, call))
  }

  /** The loader the binary dispatch calls, and the one the JSON dispatch calls. */
  const BinaryLoad := "load(deserializer)"
  const JsonLoad := "loadJson(json)"

  function EnumHead(name: string): seq<string> {
    ["", "abstract class " + name + " {", name + "();"]
  }

  function BinaryDispatchHead(name: string): seq<string> {
    [ "",
      "void serialize(BinarySerializer serializer);",
      "",
      "static " + name + " deserialize(BinaryDeserializer deserializer) {",
      "int index = deserializer.deserialize_variant_index();",
      "switch (index) {" ]
  }

  /** The abstract `serialize` and the static `deserialize` switching on the variant index. */
  function BinaryDispatchText(o: seq<string>, name: string, cases: seq<string>): seq<string> {
    AppendLines(o + BinaryDispatchHead(name), cases, |cases|)
      + ["default: throw new Exception(\"Unknown variant index for " + name + ": \" + index.toString());", "}", "}"]
  }

  function JsonDispatchHead(name: string): seq<string> {
    ["", "static " + name + " fromJson(dynamic json){", "  final type = json['type'] as int;", "  switch (type) {"]
  }

  /** The static `fromJson` switching on the `type` entry, and the abstract `toJson`. */
  function JsonDispatchText(o: seq<string>, name: string, cases: seq<string>): seq<string> {
    AppendLines(o + JsonDispatchHead(name), cases, |cases|)
      + ["default: throw new Exception(\"Unknown type for " + name + ": \" + type.toString());", "}", "}",
         "", "dynamic toJson();"]
  }

  /** Per configured encoding, its serializing and then its deserializing entry point. */
  function EncodingPairs(cfg: Config, name: string): (blocks: seq<seq<string>>)
    ensures |blocks| == |cfg.encodings|
    ensures forall i :: 0 <= i < |blocks| ==>
      blocks[i] == SerializeForEncoding(cfg.encodings[i], cfg.camelCase(cfg.encodings[i]))
                   + DeserializeForEncoding(name, cfg.encodings[i], cfg.camelCase(cfg.encodings[i]))
  {
    seq(|cfg.encodings|, i requires 0 <= i < |cfg.encodings| =>
      SerializeForEncoding(cfg.encodings[i], cfg.camelCase(cfg.encodings[i]))
        + DeserializeForEncoding(name, cfg.encodings[i], cfg.camelCase(cfg.encodings[i])))
  }

  /**
   * What the abstract base class holds between its constructor and its
   * closing brace: nothing without serialization, and otherwise the binary
   * dispatch, each encoding's entry points, then the JSON dispatch (which is
   * thus also left out without serialization).
   */
  function DispatchText(o: seq<string>, cfg: Config, name: string, vs: Variants): seq<string> {
    if !cfg.serialization then o
    else
      var o1 := BinaryDispatchText(o, name, CaseLines(name, vs, BinaryLoad));
      var o2 := AppendBlocks(o1, EncodingPairs(cfg, name), |cfg.encodings|);
      JsonDispatchText(o2, name, CaseLines(name, vs, JsonLoad))
  }

  /** The abstract base class: its head, its dispatch, its closing brace. */
  function EnumClassText(o: seq<string>, cfg: Config, name: string, vs: Variants): seq<string> {
    DispatchText(o + EnumHead(name), cfg, name, vs) + ["}", ""]
  }

  predicate VariantsResolved(vs: Variants) {
    forall i :: 0 <= i < |vs| ==> VariantResolved(vs[i].1.value)
  }

  /** `output_variant`: the class of one variant, extending the enum's class. */
  function VariantOutput(o: seq<string>, cfg: Config, base: string, tag: nat, v: Named<VariantFormat>): seq<string>
    requires VariantResolved(v.value)
  {
    VariantFieldsResolved(v.value);
    ClassOutput(o, cfg, VariantOf(base, tag), VariantClassName(base, v), VariantFields(v.value), false, v.name)
  }

  /** `output_variants`: the classes of the first `n` variants, in tag order. */
  function VariantsOutput(o: seq<string>, cfg: Config, base: string, vs: Variants, n: nat): seq<string>
    requires n <= |vs| && VariantsResolved(vs)
  {
    if n == 0 then o else VariantOutput(VariantsOutput(o, cfg, base, vs, n - 1), cfg, base, vs[n - 1].0, vs[n - 1].1)
  }

  /** Everything `output_enum_container` writes. */
  function EnumOutput(o: seq<string>, cfg: Config, name: string, vs: Variants): seq<string>
    requires VariantsResolved(vs)
  {
    VariantsOutput(EnumClassText(o, cfg, name, vs), cfg, name, vs, |vs|)
  }

  /** Everything `output_container` writes for one registry entry. */
  function ContainerOutput(o: seq<string>, cfg: Config, name: string, c: ContainerFormat): seq<string>
    requires ContainerResolved(c)
  {
    if c.Enum? then EnumOutput(o, cfg, name, c.variants)
    else
      ContainerFieldsResolved(c);
      ClassOutput(o, cfg, TopLevel, name, ContainerFields(c), Redefines(c), name)
  }

  // ---------------------------------------------------------------------------
  // What the enum text promises.

  /**
   * The binary dispatch: after the abstract `serialize` and the index read,
   * one case per variant in tag order, then the default that throws.
   */
  lemma BinaryDispatchLayout(o: seq<string>, name: string, cases: seq<string>, k: nat)
    requires k < |cases|
    ensures var d := BinaryDispatchText(o, name, cases);
      && |d| == |o| + 9 + |cases|
      && d[|o| + 4] == "int index = deserializer.deserialize_variant_index();"
      && d[|o| + 6 + k] == cases[k]
      && d[|o| + 6 + |cases|] == "default: throw new Exception(\"Unknown variant index for " + name + ": \" + index.toString());"
  {
    BinaryIndexReadAt(o, name, cases);
    AppendLinesAt(o + BinaryDispatchHead(name), cases, |cases|, |o| + 6 + k);
  }

  lemma BinaryIndexReadAt(o: seq<string>, name: string, cases: seq<string>)
    ensures BinaryDispatchText(o, name, cases)[|o| + 4] == "int index = deserializer.deserialize_variant_index();"
  {
    AppendLinesAt(o + BinaryDispatchHead(name), cases, |cases|, |o| + 4);
  }

  /**
   * The JSON dispatch: after reading the `type` entry, one case per variant
   * in tag order, then the default that throws.
   */
  lemma JsonDispatchLayout(o: seq<string>, name: string, cases: seq<string>, k: nat)
    requires k < |cases|
    ensures var d := JsonDispatchText(o, name, cases);
      && |d| == |o| + 9 + |cases|
      && d[|o| + 2] == "  final type = json['type'] as int;"
      && d[|o| + 4 + k] == cases[k]
      && d[|o| + 4 + |cases|] == "default: throw new Exception(\"Unknown type for " + name + ": \" + type.toString());"
  {
    JsonTypeReadAt(o, name, cases);
    AppendLinesAt(o + JsonDispatchHead(name), cases, |cases|, |o| + 4 + k);
  }

  lemma JsonTypeReadAt(o: seq<string>, name: string, cases: seq<string>)
    ensures JsonDispatchText(o, name, cases)[|o| + 2] == "  final type = json['type'] as int;"
  {
    AppendLinesAt(o + JsonDispatchHead(name), cases, |cases|, |o| + 2);
  }

  /** A line starting `case <m>:` is labelled with `m` and with no other number. */
  lemma {:induction false} CaseLabelUnique(m: nat, n: nat, rest: string)
    requires |rest| > 0 && rest[0] == ':'
    requires var line, prefix := "case " + NatToString(n) + rest, "case " + NatToString(m) + ":";
      |line| >= |prefix| && line[..|prefix|] == prefix
    ensures m == n
  {
    var a, b := NatToString(m), NatToString(n);
    var line, prefix := "case " + b + rest, "case " + a + ":";
    assert line[5 + |b|] == ':' && prefix[5 + |a|] == ':';
    assert forall i :: 0 <= i < |b| ==> line[5 + i] == b[i];
    assert forall j :: 5 <= j <= 5 + |a| ==> line[j] == prefix[j];
    assert forall i :: 0 <= i < |a| ==> prefix[5 + i] == a[i];
    if |a| == |b| {
      assert a == line[5..5 + |a|];
      assert b == line[5..5 + |b|];
    }
    NatToStringInjective(m, n);
  }

  /**
   * The dispatch is unambiguous and goes to the right class: with tags
   * ascending, case `k` is the only one labelled with variant `k`'s tag, and
   * it loads variant `k`'s class.
   */
  lemma DispatchFindsVariant(name: string, vs: Variants, call: string, k: nat)
    requires TagsAscending(vs) && k < |vs|
    ensures var cases, prefix := CaseLines(name, vs, call), "case " + NatToString(vs[k].0) + ":";
      && cases[k] == prefix + " return " + VariantClassName(name, vs[k].1) + "." + call + ";"
      && (forall j :: 0 <= j < |vs| && j != k ==> !(|cases[j]| >= |prefix| && cases[j][..|prefix|] == prefix))
  {
    var cases, prefix := CaseLines(name, vs, call), "case " + NatToString(vs[k].0) + ":";
    forall j | 0 <= j < |vs| && j != k
      ensures !(|cases[j]| >= |prefix| && cases[j][..|prefix|] == prefix)
    {
      var rest := ": return " + VariantClassName(name, vs[j].1) + "." + call + ";";
      assert cases[j] == "case " + NatToString(vs[j].0) + rest;
      if |cases[j]| >= |prefix| && cases[j][..|prefix|] == prefix {
        CaseLabelUnique(vs[k].0, vs[j].0, rest);
        assert false;
      }
    }
  }

  /** The class of one variant only adds to the text before it. */
  lemma VariantExtends(y: seq<string>, cfg: Config, base: string, tag: nat, v: Named<VariantFormat>)
    requires VariantResolved(v.value)
    ensures y <= VariantOutput(y, cfg, base, tag, v)
  {
    VariantFieldsResolved(v.value);
    ClassExtends(y, cfg, VariantOf(base, tag), VariantClassName(base, v), VariantFields(v.value), false, v.name);
  }

  /** The class of variant `k` only adds to the classes before it. */
  lemma VariantsStep(x: seq<string>, cfg: Config, base: string, vs: Variants, k: nat)
    requires k < |vs| && VariantsResolved(vs)
    ensures VariantsOutput(x, cfg, base, vs, k) <= VariantsOutput(x, cfg, base, vs, k + 1)
  {
    VariantExtends(VariantsOutput(x, cfg, base, vs, k), cfg, base, vs[k].0, vs[k].1);
  }

  /** The classes of more variants only extend the text. */
  lemma {:induction false} VariantsPrefix(x: seq<string>, cfg: Config, base: string, vs: Variants, m: nat, n: nat)
    requires m <= n <= |vs| && VariantsResolved(vs)
    ensures VariantsOutput(x, cfg, base, vs, m) <= VariantsOutput(x, cfg, base, vs, n)
    decreases n - m
  {
    if m < n {
      var j := m + 1;
      VariantsStep(x, cfg, base, vs, m);
      VariantsPrefix(x, cfg, base, vs, j, n);
      PrefixTrans(VariantsOutput(x, cfg, base, vs, m), VariantsOutput(x, cfg, base, vs, j),
                  VariantsOutput(x, cfg, base, vs, n));
    }
  }

  /** Without serialization, the class of one variant does not depend on the configuration. */
  lemma VariantWithoutSerialization(y: seq<string>, c1: Config, c2: Config, base: string, tag: nat,
                                    v: Named<VariantFormat>)
    requires !c1.serialization && !c2.serialization && VariantResolved(v.value)
    ensures VariantOutput(y, c1, base, tag, v) == VariantOutput(y, c2, base, tag, v)
  {
    VariantFieldsResolved(v.value);
    NoCodecWithoutSerialization(y, c1, c2, VariantOf(base, tag), VariantClassName(base, v),
                                VariantFields(v.value), false, v.name);
  }

  lemma VariantsStepWithoutSerialization(x: seq<string>, c1: Config, c2: Config, base: string, vs: Variants, k: nat)
    requires !c1.serialization && !c2.serialization && k < |vs| && VariantsResolved(vs)
    requires VariantsOutput(x, c1, base, vs, k) == VariantsOutput(x, c2, base, vs, k)
    ensures VariantsOutput(x, c1, base, vs, k + 1) == VariantsOutput(x, c2, base, vs, k + 1)
  {
    VariantWithoutSerialization(VariantsOutput(x, c1, base, vs, k), c1, c2, base, vs[k].0, vs[k].1);
  }

  /** Without serialization, the classes of the variants do not depend on the configuration. */
  lemma {:induction false} VariantsWithoutSerialization(x: seq<string>, c1: Config, c2: Config, base: string,
                                                        vs: Variants, m: nat, n: nat)
    requires !c1.serialization && !c2.serialization && m <= n <= |vs| && VariantsResolved(vs)
    requires VariantsOutput(x, c1, base, vs, m) == VariantsOutput(x, c2, base, vs, m)
    ensures VariantsOutput(x, c1, base, vs, n) == VariantsOutput(x, c2, base, vs, n)
    decreases n - m
  {
    if m < n {
      var j := m + 1;
      VariantsStepWithoutSerialization(x, c1, c2, base, vs, m);
      VariantsWithoutSerialization(x, c1, c2, base, vs, j, n);
    }
  }

  /**
   * Without serialization the configuration leaves no trace on an enum:
   * two such configurations give the same text, and the base class closes
   * right after its constructor, with neither dispatch.
   */
  lemma NoDispatchWithoutSerialization(o: seq<string>, c1: Config, c2: Config, name: string, vs: Variants)
    requires !c1.serialization && !c2.serialization && VariantsResolved(vs)
    ensures EnumOutput(o, c1, name, vs) == EnumOutput(o, c2, name, vs)
    ensures |o| + 3 < |EnumOutput(o, c1, name, vs)| && EnumOutput(o, c1, name, vs)[|o| + 3] == "}"
  {
    var e := EnumClassText(o, c1, name, vs);
    assert e == EnumClassText(o, c2, name, vs);
    VariantsWithoutSerialization(e, c1, c2, name, vs, 0, |vs|);
    VariantsPrefix(e, c1, name, vs, 0, |vs|);
    PrefixAt(e, EnumOutput(o, c1, name, vs), |o| + 3);
  }

  /**
   * A newtype container is its single field in JSON: its class ends with
   * `fromJson` taking the whole JSON value as `value` and `toJson` giving
   * `value` back, with no map around it.
   */
  lemma NewTypeJsonIsBare(o: seq<string>, cfg: Config, name: string, f: Format)
    requires ContainerResolved(NewTypeStruct(f))
    ensures var c := ContainerOutput(o, cfg, name, NewTypeStruct(f));
      && 6 <= |c|
      && c[|c| - 6..] == ["", name + ".fromJson(dynamic json) :", "value = json ;", "", "dynamic toJson() => value;", "}"]
  {
    var c := NewTypeStruct(f);
    ContainerFieldsResolved(c);
    var fields := ContainerFields(c);
    assert fields[0].name == "value";
    var o1 := ClassDeclarations(o, TopLevel, name, fields);
    RedefinedTailBare(ClassCodec(o1, cfg, TopLevel, name, fields), name, fields);
    assert fields[0].name + " = json ;" == "value = json ;";
    assert "dynamic toJson() => " + fields[0].name + ";" == "dynamic toJson() => value;";
  }

  // ---------------------------------------------------------------------------
  // The tag round trip: the class that writes a tag is the class its case loads.

  /**
   * The class of a variant with tag `tag`, written in text `t` from line `p`
   * on and ending before line `q`: its head names `VariantClassName(base, v)`
   * as a subclass of the enum's class, its `serialize` (after line `s`)
   * writes `tag` as the variant index first, and its `toJson` ends with
   * `tag` as `type` and the variant's own name as `type_name`.
   */
  predicate TaggedClassAt(t: seq<string>, p: nat, s: nat, q: nat, base: string, tag: nat, v: Named<VariantFormat>) {
    && p + 1 < |t| && 4 <= q <= |t|
    && t[p + 1] == "class " + VariantClassName(base, v) + " extends " + base + " {"
    && WritesIndex(t, s, tag)
    && t[q - 4] == "\"type\" : " + NatToString(tag) + ","
    && t[q - 3] == "\"type_name\" : \"" + v.name + "\""
  }

  lemma TaggedInPrefix(a: seq<string>, b: seq<string>, p: nat, s: nat, q: nat, base: string, tag: nat,
                       v: Named<VariantFormat>)
    requires a <= b && TaggedClassAt(a, p, s, q, base, tag, v)
    ensures TaggedClassAt(b, p, s, q, base, tag, v)
  {
    PrefixAt(a, b, p + 1);
    PrefixAt(a, b, s + 1);
    PrefixAt(a, b, s + 2);
    PrefixAt(a, b, q - 4);
    PrefixAt(a, b, q - 3);
  }

  /** The line after which the codec of a variant's class starts, when the class follows `x`. */
  function VariantCodecStart(x: seq<string>, base: string, tag: nat, v: Named<VariantFormat>): nat
    requires VariantResolved(v.value)
  {
    VariantFieldsResolved(v.value);
    |ClassDeclarations(x, VariantOf(base, tag), VariantClassName(base, v), VariantFields(v.value))|
  }

  /** The class of a variant opens with its head, naming it a subclass of the enum's class. */
  lemma VariantHeadAt(x: seq<string>, cfg: Config, base: string, tag: nat, v: Named<VariantFormat>)
    requires VariantResolved(v.value)
    ensures var c := VariantOutput(x, cfg, base, tag, v);
      |x| + 1 < |c| && c[|x| + 1] == "class " + VariantClassName(base, v) + " extends " + base + " {"
  {
    var kind, cname, fields := VariantOf(base, tag), VariantClassName(base, v), VariantFields(v.value);
    VariantFieldsResolved(v.value);
    ClassOpens(x, cfg, kind, cname, fields, false, v.name);
    PrefixAt(x + ["", ClassHead(kind, cname)], ClassOutput(x, cfg, kind, cname, fields, false, v.name), |x| + 1);
  }

  /** With serialization, the `serialize` of a variant's class writes its tag first. */
  lemma VariantIndexAt(x: seq<string>, cfg: Config, base: string, tag: nat, v: Named<VariantFormat>)
    requires cfg.serialization && VariantResolved(v.value)
    ensures WritesIndex(VariantOutput(x, cfg, base, tag, v), VariantCodecStart(x, base, tag, v), tag)
  {
    var kind, cname, fields := VariantOf(base, tag), VariantClassName(base, v), VariantFields(v.value);
    VariantFieldsResolved(v.value);
    var o1 := ClassDeclarations(x, kind, cname, fields);
    var s := |o1|;
    CodecInClass(x, cfg, kind, cname, fields, false, v.name);
    ClassWritesIndex(o1, ClassOutput(x, cfg, kind, cname, fields, false, v.name), cfg, kind, cname, fields, s);
  }

  /** The `toJson` of a variant's class ends with its tag as `type` and its name as `type_name`. */
  lemma VariantTypeAt(x: seq<string>, cfg: Config, base: string, tag: nat, v: Named<VariantFormat>)
    requires VariantResolved(v.value)
    ensures var c := VariantOutput(x, cfg, base, tag, v);
      && 6 <= |c|
      && c[|c| - 4] == "\"type\" : " + NatToString(tag) + ","
      && c[|c| - 3] == "\"type_name\" : \"" + v.name + "\""
  {
    var kind, cname, fields := VariantOf(base, tag), VariantClassName(base, v), VariantFields(v.value);
    VariantFieldsResolved(v.value);
    var o1 := ClassDeclarations(x, kind, cname, fields);
    VariantTailTagged(ClassCodec(o1, cfg, kind, cname, fields), base, tag, cname, fields, v.name);
  }

  /** The class `output_variant` writes carries its tag in its head's name, its index and its JSON. */
  lemma VariantClassTagged(x: seq<string>, cfg: Config, base: string, tag: nat, v: Named<VariantFormat>)
    requires cfg.serialization && VariantResolved(v.value)
    ensures var c := VariantOutput(x, cfg, base, tag, v);
      TaggedClassAt(c, |x|, VariantCodecStart(x, base, tag, v), |c|, base, tag, v)
  {
    VariantHeadAt(x, cfg, base, tag, v);
    VariantIndexAt(x, cfg, base, tag, v);
    VariantTypeAt(x, cfg, base, tag, v);
  }

  /** The first line of the JSON dispatch's cases, in an enum written after `n` lines. */
  function JsonCasesStart(n: nat, cfg: Config, vs: Variants): nat {
    n + 16 + |vs| + 15 * |cfg.encodings|
  }

  /**
   * Case `k` of both dispatches, in text `t` holding an enum written after
   * `o`: the binary case `k` and the JSON case `k` load variant `k`'s class
   * under its tag.
   */
  predicate DispatchesTo(t: seq<string>, o: seq<string>, cfg: Config, name: string, vs: Variants, k: nat)
    requires k < |vs|
  {
    && JsonCasesStart(|o|, cfg, vs) + k < |t|
    && t[|o| + 9 + k] == CaseLine(name, vs[k].0, vs[k].1, BinaryLoad)
    && t[JsonCasesStart(|o|, cfg, vs) + k] == CaseLine(name, vs[k].0, vs[k].1, JsonLoad)
  }

  /** Case `k` of the binary dispatch written after `o` is line `p`. */
  lemma BinaryCaseLine(o: seq<string>, name: string, cases: seq<string>, k: nat, p: nat)
    requires k < |cases| && p == |o| + 6 + k
    ensures p < |BinaryDispatchText(o, name, cases)| && BinaryDispatchText(o, name, cases)[p] == cases[k]
  {
    BinaryDispatchLayout(o, name, cases, k);
  }

  /** Case `k` of the JSON dispatch written after `o` is line `p`. */
  lemma JsonCaseLine(o: seq<string>, name: string, cases: seq<string>, k: nat, p: nat)
    requires k < |cases| && p == |o| + 4 + k
    ensures p < |JsonDispatchText(o, name, cases)| && JsonDispatchText(o, name, cases)[p] == cases[k]
  {
    JsonDispatchLayout(o, name, cases, k);
  }

  /**
   * Where the two dispatches sit in the base class: the binary one right
   * after the head, the JSON one after the encodings' entry points.
   */
  lemma DispatchFrame(o: seq<string>, cfg: Config, name: string, vs: Variants)
    requires cfg.serialization
    ensures var o1 := BinaryDispatchText(o + EnumHead(name), name, CaseLines(name, vs, BinaryLoad));
      var o2 := AppendBlocks(o1, EncodingPairs(cfg, name), |cfg.encodings|);
      && o1 <= EnumClassText(o, cfg, name, vs)
      && JsonDispatchText(o2, name, CaseLines(name, vs, JsonLoad)) <= EnumClassText(o, cfg, name, vs)
      && |o2| + 4 == JsonCasesStart(|o|, cfg, vs)
  {
    var o1 := BinaryDispatchText(o + EnumHead(name), name, CaseLines(name, vs, BinaryLoad));
    var e := |cfg.encodings|;
    var o2 := AppendBlocks(o1, EncodingPairs(cfg, name), e);
    var j := JsonDispatchText(o2, name, CaseLines(name, vs, JsonLoad));
    assert Uniform(EncodingPairs(cfg, name), e, 15);
    AppendBlocksLength(o1, EncodingPairs(cfg, name), e, 15);
    AppendBlocksPrefix(o1, EncodingPairs(cfg, name), 0, e);
    JsonDispatchExtends(o2, name, CaseLines(name, vs, JsonLoad));
    Extends(j, ["}", ""]);
    PrefixTrans(o1, o2, j);
    PrefixTrans(o1, j, j + ["}", ""]);
  }

  lemma BinaryCaseAt(o: seq<string>, t: seq<string>, cfg: Config, name: string, vs: Variants, k: nat)
    requires cfg.serialization && k < |vs| && EnumClassText(o, cfg, name, vs) <= t
    ensures |o| + 9 + k < |t| && t[|o| + 9 + k] == CaseLine(name, vs[k].0, vs[k].1, BinaryLoad)
  {
    var o0 := o + EnumHead(name);
    var cases := CaseLines(name, vs, BinaryLoad);
    var o1 := BinaryDispatchText(o0, name, cases);
    var p := |o| + 9 + k;
    DispatchFrame(o, cfg, name, vs);
    PrefixTrans(o1, EnumClassText(o, cfg, name, vs), t);
    BinaryCaseLine(o0, name, cases, k, p);
    PrefixAt(o1, t, p);
  }

  lemma JsonCaseAt(o: seq<string>, t: seq<string>, cfg: Config, name: string, vs: Variants, k: nat)
    requires cfg.serialization && k < |vs| && EnumClassText(o, cfg, name, vs) <= t
    ensures JsonCasesStart(|o|, cfg, vs) + k < |t|
    ensures t[JsonCasesStart(|o|, cfg, vs) + k] == CaseLine(name, vs[k].0, vs[k].1, JsonLoad)
  {
    var o1 := BinaryDispatchText(o + EnumHead(name), name, CaseLines(name, vs, BinaryLoad));
    var o2 := AppendBlocks(o1, EncodingPairs(cfg, name), |cfg.encodings|);
    var cases := CaseLines(name, vs, JsonLoad);
    var j := JsonDispatchText(o2, name, cases);
    var p := JsonCasesStart(|o|, cfg, vs) + k;
    DispatchFrame(o, cfg, name, vs);
    PrefixTrans(j, EnumClassText(o, cfg, name, vs), t);
    JsonCaseLine(o2, name, cases, k, p);
    PrefixAt(j, t, p);
  }

  lemma DispatchAt(o: seq<string>, t: seq<string>, cfg: Config, name: string, vs: Variants, k: nat)
    requires cfg.serialization && k < |vs| && EnumClassText(o, cfg, name, vs) <= t
    ensures DispatchesTo(t, o, cfg, name, vs, k)
  {
    BinaryCaseAt(o, t, cfg, name, vs, k);
    JsonCaseAt(o, t, cfg, name, vs, k);
  }

  lemma JsonDispatchExtends(o: seq<string>, name: string, cases: seq<string>)
    ensures o <= JsonDispatchText(o, name, cases)
  {
    var o1 := AppendLines(o + JsonDispatchHead(name), cases, |cases|);
    Extends(o, JsonDispatchHead(name));
    AppendLinesExtends(o + JsonDispatchHead(name), cases, |cases|);
    PrefixTrans(o, o + JsonDispatchHead(name), o1);
    Extends(o1, ["default: throw new Exception(\"Unknown type for " + name + ": \" + type.toString());", "}", "}",
                 "", "dynamic toJson();"]);
    PrefixTrans(o, o1, JsonDispatchText(o, name, cases));
  }

  /**
   * The tag round trip of an enum with serialization: the `k`-th class after
   * the base class is variant `k`'s, named `VariantClassName(name, vs[k].1)`;
   * it writes `vs[k].0` as its variant index and as its JSON `type`; and
   * case `k` of the binary and of the JSON dispatch loads that very class
   * under that very tag.
   */
  lemma VariantTagRoundTrip(o: seq<string>, cfg: Config, name: string, vs: Variants, k: nat)
    requires cfg.serialization && VariantsResolved(vs) && k < |vs|
    ensures var out, base := EnumOutput(o, cfg, name, vs), EnumClassText(o, cfg, name, vs);
      var x := VariantsOutput(base, cfg, name, vs, k);
      TaggedClassAt(out, |x|, VariantCodecStart(x, name, vs[k].0, vs[k].1),
                    |VariantsOutput(base, cfg, name, vs, k + 1)|, name, vs[k].0, vs[k].1)
    ensures DispatchesTo(EnumOutput(o, cfg, name, vs), o, cfg, name, vs, k)
  {
    VariantTaggedInEnum(o, cfg, name, vs, k);
    DispatchInEnum(o, cfg, name, vs, k);
  }

  /** The class of variant `k` keeps its place, and its tags, in the whole enum. */
  lemma VariantTaggedInEnum(o: seq<string>, cfg: Config, name: string, vs: Variants, k: nat)
    requires cfg.serialization && VariantsResolved(vs) && k < |vs|
    ensures var out, base := EnumOutput(o, cfg, name, vs), EnumClassText(o, cfg, name, vs);
      var x := VariantsOutput(base, cfg, name, vs, k);
      TaggedClassAt(out, |x|, VariantCodecStart(x, name, vs[k].0, vs[k].1),
                    |VariantsOutput(base, cfg, name, vs, k + 1)|, name, vs[k].0, vs[k].1)
  {
    var base := EnumClassText(o, cfg, name, vs);
    var x := VariantsOutput(base, cfg, name, vs, k);
    var j, n := k + 1, |vs|;
    var a := VariantsOutput(base, cfg, name, vs, j);
    VariantClassTagged(x, cfg, name, vs[k].0, vs[k].1);
    VariantsPrefix(base, cfg, name, vs, j, n);
    TaggedInPrefix(a, VariantsOutput(base, cfg, name, vs, n), |x|, VariantCodecStart(x, name, vs[k].0, vs[k].1),
                   |a|, name, vs[k].0, vs[k].1);
  }

  /** Case `k` of both dispatches keeps its place in the whole enum. */
  lemma DispatchInEnum(o: seq<string>, cfg: Config, name: string, vs: Variants, k: nat)
    requires cfg.serialization && VariantsResolved(vs) && k < |vs|
    ensures DispatchesTo(EnumOutput(o, cfg, name, vs), o, cfg, name, vs, k)
  {
    var base := EnumClassText(o, cfg, name, vs);
    var n := |vs|;
    VariantsPrefix(base, cfg, name, vs, 0, n);
    DispatchAt(o, VariantsOutput(base, cfg, name, vs, n), cfg, name, vs, k);
  }

  /**
   * The base class offers each configured encoding's serializing entry point
   * immediately followed by its deserializing one, in configuration order.
   */
  lemma EncodingPairsInterleaved(o: seq<string>, cfg: Config, name: string, k: nat, j: nat)
    requires k < |cfg.encodings| && j < 15
    ensures |o| + 15 * k + j < |AppendBlocks(o, EncodingPairs(cfg, name), |cfg.encodings|)|
    ensures var e := cfg.encodings[k];
      AppendBlocks(o, EncodingPairs(cfg, name), |cfg.encodings|)[|o| + 15 * k + j]
        == (SerializeForEncoding(e, cfg.camelCase(e)) + DeserializeForEncoding(name, e, cfg.camelCase(e)))[j]
  {
    AppendBlocksAt(o, EncodingPairs(cfg, name), |cfg.encodings|, 15, k, j);
  }
}
