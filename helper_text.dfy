/**
 * The text of the shared helper routines: `output_serialization_helper` and
 * `output_deserialization_helper` for one table entry, and the `TraitHelpers`
 * class that holds one pair per entry.
 */
module HelperText {
  import opened Text
  import opened Formats
  import opened TypeMapper
  import opened Expressions
  import opened HelperCollection

  // ---------------------------------------------------------------------------
  // The fixed lines of the helper templates.

  const OptionTagTrue := "    serializer.serialize_option_tag(true);"
  const OptionTagFalse := "    serializer.serialize_option_tag(false);"
  const OptionTagRead := "bool tag = deserializer.deserialize_option_tag();"
  const OptionEmpty := "    return Optional.empty();"
  const LengthWrite := "serializer.serialize_len(value.length);"
  const LengthRead := "int length = deserializer.deserialize_len();"
  const ReadLoop := "for (int i = 0; i < length; i++) {"
  const OffsetsDecl := "List<int> offsets = new List<int>();"
  const OffsetRecord := "    offsets[count++] = serializer.get_buffer_offset();"
  const SortEntries := "serializer.sort_map_entries(offsets);"
  const KeyStart := "    int key_start = deserializer.get_buffer_offset();"
  const KeyEnd := "    int key_end = deserializer.get_buffer_offset();"
  const KeySliceCheck := "        deserializer.check_that_key_slices_are_increasing("
  const PreviousSlice := "            new Slice(previous_key_start, previous_key_end),"
  const CurrentSlice := "            new Slice(key_start, key_end));"
  const PreviousStart := "    previous_key_start = key_start;"
  const PreviousEnd := "    previous_key_end = key_end;"
  const EntryCount := "int count = 0;"
  const PreviousStartDecl := "int previous_key_start = 0;"
  const PreviousEndDecl := "int previous_key_end = 0;"
  const NotFirstEntry := "    if (i > 0) {"
  const EntryPut := "    obj.put(key, value);"
  const ReturnObj := "return obj;"

  /** The write of tuple element `i`, as `value.item<i+1>`. */
  function TupleItemWrite(mangle: Mangler, fs: seq<Format>, i: nat): string
    requires i < |fs|
  {
    SerializeValue(mangle, "value.item" + NatToString(i + 1), fs[i])
  }

  /** The writes of the first `n` tuple elements, in order. */
  function TupleItemWrites(mangle: Mangler, fs: seq<Format>, n: nat): (r: seq<string>)
    requires n <= |fs|
    ensures |r| == n
  {
    if n == 0 then [] else TupleItemWrites(mangle, fs, n - 1) + [TupleItemWrite(mangle, fs, n - 1)]
  }

  lemma {:induction false} TupleItemWritesAt(mangle: Mangler, fs: seq<Format>, n: nat, i: nat)
    requires i < n <= |fs|
    ensures TupleItemWrites(mangle, fs, n)[i] == TupleItemWrite(mangle, fs, i)
  {
    if i < n - 1 {
      TupleItemWritesAt(mangle, fs, n - 1, i);
    }
  }

  function SerializationHelperHeader(name: string, f: Format): string
    requires Resolved(f)
  {
    "static void serialize_" + name + "(" + QuoteType(f) + " value, BinarySerializer serializer) {"
  }

  /**
   * The serialization helper for a `needs_helper` format; any other format
   * panics. Each shape fills a fixed template with the element types and the
   * element writes of its children.
   */
  function SerializationHelperLines(mangle: Mangler, name: string, f: Format): seq<string>
    requires NeedsHelper(f) && Resolved(f)
  {
    var header := SerializationHelperHeader(name, f);
    match f
    case Option(g) => OptionWriter(header, SerializeValue(mangle, "value.value", g))
    case Seq(g) => SeqWriter(header, QuoteType(g), SerializeValue(mangle, "item", g))
    case Map(k, v) =>
      MapWriter(header, QuoteType(k), QuoteType(v),
        SerializeValue(mangle, "entry.getKey()", k), SerializeValue(mangle, "entry.getValue()", v))
    case Tuple(fs) => TupleWriter(header, TupleItemWrites(mangle, fs, |fs|))
    case TupleArray(g, size) => ArrayWriter(header, NatToString(size), QuoteType(g), SerializeValue(mangle, "item", g))
  }

  function OptionWriter(header: string, write: string): (r: seq<string>)
    ensures |r| == 9
  {
    [ header,
      "if (value.isPresent) {",
      OptionTagTrue,
      "    " + write,
      "} else {",
      OptionTagFalse,
      "}",
      "}", "" ]
  }

  function SeqWriter(header: string, elemType: string, write: string): (r: seq<string>)
    ensures |r| == 7
  {
    [ header,
      LengthWrite,
      "for (" + elemType + " item in value) {",
      "    " + write,
      "}",
      "}", "" ]
  }

  function MapWriter(header: string, keyType: string, valueType: string, keyWrite: string, valueWrite: string): (r: seq<string>)
    ensures |r| == 12
  {
    [ header,
      LengthWrite,
      OffsetsDecl,
      EntryCount,
      "for (Map.Entry<" + keyType + ", " + valueType + "> entry : value.entrySet()) {",
      OffsetRecord,
      "    " + keyWrite,
      "    " + valueWrite,
      "}",
      SortEntries,
      "}", "" ]
  }

  function TupleWriter(header: string, writes: seq<string>): (r: seq<string>)
    ensures |r| == |writes| + 3
  {
    [header] + writes + ["}", ""]
  }

  function ArrayWriter(header: string, size: string, elemType: string, write: string): (r: seq<string>)
    ensures |r| == 7
  {
    [ header,
      "assert (value.length == " + size + ");",
      "for (" + elemType + " item in value) {",
      "    " + write,
      "}",
      "}", "" ]
  }

  /** The read expressions of the tuple elements, in order. */
  function DeserializeEach(mangle: Mangler, fs: seq<Format>): (r: seq<string>)
    ensures |r| == |fs|
  {
    if |fs| == 0 then [] else [DeserializeExpr(mangle, fs[0])] + DeserializeEach(mangle, fs[1..])
  }

  lemma {:induction false} DeserializeEachAt(mangle: Mangler, fs: seq<Format>, i: nat)
    requires i < |fs|
    ensures DeserializeEach(mangle, fs)[i] == DeserializeExpr(mangle, fs[i])
  {
    if i > 0 {
      DeserializeEachAt(mangle, fs[1..], i - 1);
    }
  }

  /** Read expression `i` on its own line, followed by a comma unless it is the last. */
  function TupleItemRead(exprs: seq<string>, i: nat): string
    requires i < |exprs|
  {
    "    " + exprs[i] + (if i < |exprs| - 1 then "," else "")
  }

  /** The lines reading the first `n` tuple elements, in order. */
  function TupleItemReads(exprs: seq<string>, n: nat): (r: seq<string>)
    requires n <= |exprs|
    ensures |r| == n
  {
    if n == 0 then [] else TupleItemReads(exprs, n - 1) + [TupleItemRead(exprs, n - 1)]
  }

  lemma {:induction false} TupleItemReadsAt(exprs: seq<string>, n: nat, i: nat)
    requires i < n <= |exprs|
    ensures TupleItemReads(exprs, n)[i] == TupleItemRead(exprs, i)
  {
    if i < n - 1 {
      TupleItemReadsAt(exprs, n - 1, i);
    }
  }

  function DeserializationHelperHeader(name: string, f: Format): string
    requires Resolved(f)
  {
    "static " + QuoteType(f) + " deserialize_" + name + "(BinaryDeserializer deserializer) {"
  }

  /** The deserialization helper for a `needs_helper` format; any other format panics. */
  function DeserializationHelperLines(mangle: Mangler, name: string, f: Format): seq<string>
    requires NeedsHelper(f) && Resolved(f)
  {
    var header := DeserializationHelperHeader(name, f);
    match f
    case Option(g) => OptionReader(header, DeserializeExpr(mangle, g))
    case Seq(g) => SeqReader(header, QuoteType(g), DeserializeExpr(mangle, g))
    case Map(k, v) => MapReader(header, QuoteType(k), QuoteType(v), DeserializeExpr(mangle, k), DeserializeExpr(mangle, v))
    case Tuple(fs) => TupleReader(header, QuoteType(f), DeserializeEach(mangle, fs))
    case TupleArray(g, size) => ArrayReader(header, NatToString(size), QuoteType(g), DeserializeExpr(mangle, g))
  }

  function OptionReader(header: string, read: string): (r: seq<string>)
    ensures |r| == 9
  {
    [ header,
      OptionTagRead,
      "if (!tag) {",
      OptionEmpty,
      "} else {",
      "    return Optional.of(" + read + ");",
      "}",
      "}", "" ]
  }

  function SeqReader(header: string, elemType: string, read: string): (r: seq<string>)
    ensures |r| == 9
  {
    [ header,
      LengthRead,
      "List<" + elemType + "> obj = new List<" + elemType + ">(length);",
      ReadLoop,
      "    obj[i]=" + read + ";",
      "}",
      ReturnObj,
      "}", "" ]
  }

  function MapReader(header: string, keyType: string, valueType: string, keyRead: string, valueRead: string): (r: seq<string>)
    ensures |r| == 22
  {
    [ header,
      LengthRead,
      "Map<" + keyType + ", " + valueType + "> obj = new HashMap<" + keyType + ", " + valueType + ">();",
      PreviousStartDecl,
      PreviousEndDecl,
      ReadLoop,
      KeyStart,
      "    " + keyType + " key = " + keyRead + ";",
      KeyEnd,
      NotFirstEntry,
      KeySliceCheck,
      PreviousSlice,
      CurrentSlice,
      "    }",
      PreviousStart,
      PreviousEnd,
      "    " + valueType + " value = " + valueRead + ";",
      EntryPut,
      "}",
      ReturnObj,
      "}", "" ]
  }

  function TupleReader(header: string, tupleType: string, exprs: seq<string>): (r: seq<string>)
    ensures |r| == |exprs| + 5
  {
    [header, "return new " + tupleType + "("] + TupleItemReads(exprs, |exprs|) + [");", "}", ""]
  }

  function ArrayReader(header: string, size: string, elemType: string, read: string): (r: seq<string>)
    ensures |r| == 8
  {
    [ header,
      "List<" + elemType + "> obj = new List<" + elemType + ">.filled(" + size + ", 0);",
      "for (int i = 0; i < " + size + "; i++) {",
      "    obj[i] = " + read + ";",
      "}",
      ReturnObj,
      "}", "" ]
  }

  // ---------------------------------------------------------------------------
  // The whole `TraitHelpers` class.

  /** The helper pair of each table entry, in the table's (ascending) order. */
  function HelperPairs(mangle: Mangler, t: Table): (blocks: seq<seq<string>>)
    requires forall i :: 0 <= i < |t| ==> NeedsHelper(t[i].1) && Resolved(t[i].1)
    ensures |blocks| == |t|
    ensures forall i :: 0 <= i < |t| ==>
      blocks[i] == SerializationHelperLines(mangle, t[i].0, t[i].1) + DeserializationHelperLines(mangle, t[i].0, t[i].1)
  {
    seq(|t|, i requires 0 <= i < |t| =>
      SerializationHelperLines(mangle, t[i].0, t[i].1) + DeserializationHelperLines(mangle, t[i].0, t[i].1))
  }

  /** The `TraitHelpers` class: its head, one helper pair per entry, its closing brace. */
  function TraitHelpersText(o: seq<string>, mangle: Mangler, t: Table): seq<string>
    requires forall i :: 0 <= i < |t| ==> NeedsHelper(t[i].1) && Resolved(t[i].1)
  {
    AppendBlocks(o + ["class TraitHelpers {"], HelperPairs(mangle, t), |t|) + ["}", ""]
  }

  /**
   * The helpers appear in table order: the class opens with its head, and
   * entry `k`'s serialization helper, then its deserialization helper,
   * follow the pairs of the entries before it, with the later pairs after.
   */
  lemma HelperPairsInOrder(o: seq<string>, mangle: Mangler, t: Table, k: nat)
    requires forall i :: 0 <= i < |t| ==> NeedsHelper(t[i].1) && Resolved(t[i].1)
    requires k < |t|
    ensures var head := o + ["class TraitHelpers {"];
      AppendBlocks(head, HelperPairs(mangle, t), k)
        + (SerializationHelperLines(mangle, t[k].0, t[k].1) + DeserializationHelperLines(mangle, t[k].0, t[k].1))
        <= TraitHelpersText(o, mangle, t)
  {
    var head, blocks := o + ["class TraitHelpers {"], HelperPairs(mangle, t);
    AppendBlocksAfter(head, blocks, k, |t|);
    var before := AppendBlocks(head, blocks, |t|);
    assert before <= before + ["}", ""];
  }
}
