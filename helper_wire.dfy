/**
 * What the helper pair of each shape puts on the wire: the serialization and
 * the deserialization routine of one table entry agree on the order of the
 * elements, on whether a length is sent, and on the option tag, and each
 * element is written and read through the same route. Each lemma is stated
 * on `SerializationHelperLines` and `DeserializationHelperLines` of one
 * shape.
 */
module HelperWire {
  import opened Text
  import opened Formats
  import opened TypeMapper
  import opened Expressions
  import opened HelperText

  /**
   * The option helper pair: the tag `true` and then the inner value when
   * present, `false` alone when absent; the reader reads the tag first and
   * the inner value only when the tag is set. The inner value is written and
   * read through the same route.
   */
  lemma OptionHelpersAgree(mangle: Mangler, name: string, g: Format)
    requires Resolved(Option(g))
    ensures var ser := SerializationHelperLines(mangle, name, Option(g));
      var de := DeserializationHelperLines(mangle, name, Option(g));
      var write, read := SerializeValue(mangle, "value.value", g), DeserializeExpr(mangle, g);
      && |ser| == 9 && |de| == 9
      && ser[1] == "if (value.isPresent) {"
      && ser[2] == OptionTagTrue
      && ser[3] == "    " + write
      && ser[5] == OptionTagFalse
      && de[1] == OptionTagRead
      && de[3] == OptionEmpty
      && de[5] == "    return Optional.of(" + read + ");"
      && SameRoute(mangle, "value.value", g, write, read)
  {
    SerializeDeserializeAgree(mangle, "value.value", g);
  }

  /**
   * A sequence helper pair puts the length on the wire first, the writer
   * writing it and the reader reading it, then the elements one after
   * another in a loop, each written and read through the same route.
   */
  lemma SeqHelpersAgree(mangle: Mangler, name: string, g: Format)
    requires Resolved(Seq(g))
    ensures var ser := SerializationHelperLines(mangle, name, Seq(g));
      && |ser| == 7
      && ser[1] == LengthWrite
      && ser[2] == "for (" + QuoteType(g) + " item in value) {"
      && ser[3] == "    " + SerializeValue(mangle, "item", g)
    ensures var de := DeserializationHelperLines(mangle, name, Seq(g));
      && |de| == 9
      && de[1] == LengthRead
      && de[2] == "List<" + QuoteType(g) + "> obj = new List<" + QuoteType(g) + ">(length);"
      && de[3] == ReadLoop
      && de[4] == "    obj[i]=" + DeserializeExpr(mangle, g) + ";"
    ensures SameRoute(mangle, "item", g, SerializeValue(mangle, "item", g), DeserializeExpr(mangle, g))
  {
    SeqWriterFacts(mangle, name, g);
    SeqReaderFacts(mangle, name, g);
    SerializeDeserializeAgree(mangle, "item", g);
  }

  lemma SeqWriterFacts(mangle: Mangler, name: string, g: Format)
    requires Resolved(Seq(g))
    ensures var ser := SerializationHelperLines(mangle, name, Seq(g));
      && |ser| == 7
      && ser[1] == LengthWrite
      && ser[2] == "for (" + QuoteType(g) + " item in value) {"
      && ser[3] == "    " + SerializeValue(mangle, "item", g)
  {
  }

  lemma SeqReaderFacts(mangle: Mangler, name: string, g: Format)
    requires Resolved(Seq(g))
    ensures var de := DeserializationHelperLines(mangle, name, Seq(g));
      && |de| == 9
      && de[1] == LengthRead
      && de[2] == "List<" + QuoteType(g) + "> obj = new List<" + QuoteType(g) + ">(length);"
      && de[3] == ReadLoop
      && de[4] == "    obj[i]=" + DeserializeExpr(mangle, g) + ";"
  {
  }

  /**
   * A map helper pair: the writer writes the entry count, then each entry
   * key before value, recording where each entry starts, and finally calls
   * `sort_map_entries` on those offsets; the reader reads the entry count,
   * then each key before its value, and from the second entry on calls
   * `check_that_key_slices_are_increasing` on the previous and the current
   * key slice. Keys are written and read through the same route, and so are
   * values.
   */
  lemma MapHelpersAgree(mangle: Mangler, name: string, k: Format, v: Format)
    requires Resolved(Map(k, v))
    ensures var ser := SerializationHelperLines(mangle, name, Map(k, v));
      && |ser| == 12
      && ser[1] == LengthWrite
      && ser[5] == OffsetRecord
      && ser[6] == "    " + SerializeValue(mangle, "entry.getKey()", k)
      && ser[7] == "    " + SerializeValue(mangle, "entry.getValue()", v)
      && ser[9] == SortEntries
    ensures var de := DeserializationHelperLines(mangle, name, Map(k, v));
      && |de| == 22
      && de[1] == LengthRead
      && de[7] == "    " + QuoteType(k) + " key = " + DeserializeExpr(mangle, k) + ";"
      && de[9] == NotFirstEntry
      && de[10] == KeySliceCheck
      && de[16] == "    " + QuoteType(v) + " value = " + DeserializeExpr(mangle, v) + ";"
    ensures SameRoute(mangle, "entry.getKey()", k, SerializeValue(mangle, "entry.getKey()", k), DeserializeExpr(mangle, k))
    ensures SameRoute(mangle, "entry.getValue()", v, SerializeValue(mangle, "entry.getValue()", v), DeserializeExpr(mangle, v))
  {
    MapWriterFacts(mangle, name, k, v);
    MapReaderFacts(mangle, name, k, v);
    SerializeDeserializeAgree(mangle, "entry.getKey()", k);
    SerializeDeserializeAgree(mangle, "entry.getValue()", v);
  }

  lemma MapWriterFacts(mangle: Mangler, name: string, k: Format, v: Format)
    requires Resolved(Map(k, v))
    ensures var ser := SerializationHelperLines(mangle, name, Map(k, v));
      && |ser| == 12
      && ser[1] == LengthWrite
      && ser[5] == OffsetRecord
      && ser[6] == "    " + SerializeValue(mangle, "entry.getKey()", k)
      && ser[7] == "    " + SerializeValue(mangle, "entry.getValue()", v)
      && ser[9] == SortEntries
  {
    MapWriterAt(mangle, name, k, v);
  }

  lemma MapReaderFacts(mangle: Mangler, name: string, k: Format, v: Format)
    requires Resolved(Map(k, v))
    ensures var de := DeserializationHelperLines(mangle, name, Map(k, v));
      && |de| == 22
      && de[1] == LengthRead
      && de[7] == "    " + QuoteType(k) + " key = " + DeserializeExpr(mangle, k) + ";"
      && de[9] == NotFirstEntry
      && de[10] == KeySliceCheck
      && de[16] == "    " + QuoteType(v) + " value = " + DeserializeExpr(mangle, v) + ";"
  {
    var keyRead, valueRead := DeserializeExpr(mangle, k), DeserializeExpr(mangle, v);
    var de := MapReader(DeserializationHelperHeader(name, Map(k, v)), QuoteType(k), QuoteType(v), keyRead, valueRead);
    MapReaderAt(mangle, name, k, v);
    assert de[7] == "    " + QuoteType(k) + " key = " + keyRead + ";";
    assert de[16] == "    " + QuoteType(v) + " value = " + valueRead + ";";
  }

  lemma MapWriterAt(mangle: Mangler, name: string, k: Format, v: Format)
    requires Resolved(Map(k, v))
    ensures SerializationHelperLines(mangle, name, Map(k, v))
      == MapWriter(SerializationHelperHeader(name, Map(k, v)), QuoteType(k), QuoteType(v),
           SerializeValue(mangle, "entry.getKey()", k), SerializeValue(mangle, "entry.getValue()", v))
  {
  }

  lemma MapReaderAt(mangle: Mangler, name: string, k: Format, v: Format)
    requires Resolved(Map(k, v))
    ensures DeserializationHelperLines(mangle, name, Map(k, v))
      == MapReader(DeserializationHelperHeader(name, Map(k, v)), QuoteType(k), QuoteType(v),
           DeserializeExpr(mangle, k), DeserializeExpr(mangle, v))
  {
  }

  /**
   * A tuple helper pair writes `item1..itemN` and reads the elements back in
   * that same order, element `i` through the same route both ways, as the
   * arguments of the tuple constructor.
   */
  lemma TupleHelpersAgree(mangle: Mangler, name: string, fs: seq<Format>, i: nat)
    requires Resolved(Tuple(fs)) && i < |fs|
    ensures var ser := SerializationHelperLines(mangle, name, Tuple(fs));
      && |ser| == |fs| + 3
      && ser[1 + i] == SerializeValue(mangle, "value.item" + NatToString(i + 1), fs[i])
    ensures var de := DeserializationHelperLines(mangle, name, Tuple(fs));
      && |de| == |fs| + 5
      && de[1] == "return new " + QuoteType(Tuple(fs)) + "("
      && de[2 + i] == "    " + DeserializeExpr(mangle, fs[i]) + (if i < |fs| - 1 then "," else "")
    ensures SameRoute(mangle, "value.item" + NatToString(i + 1), fs[i],
                      SerializeValue(mangle, "value.item" + NatToString(i + 1), fs[i]), DeserializeExpr(mangle, fs[i]))
  {
    TupleWriterFacts(mangle, name, fs, i);
    TupleReaderFacts(mangle, name, fs, i);
    SerializeDeserializeAgree(mangle, "value.item" + NatToString(i + 1), fs[i]);
  }

  lemma TupleWriterFacts(mangle: Mangler, name: string, fs: seq<Format>, i: nat)
    requires Resolved(Tuple(fs)) && i < |fs|
    ensures var ser := SerializationHelperLines(mangle, name, Tuple(fs));
      && |ser| == |fs| + 3
      && ser[1 + i] == SerializeValue(mangle, "value.item" + NatToString(i + 1), fs[i])
  {
    var sh := SerializationHelperHeader(name, Tuple(fs));
    var writes := TupleItemWrites(mangle, fs, |fs|);
    assert SerializationHelperLines(mangle, name, Tuple(fs)) == [sh] + writes + ["}", ""];
    assert ([sh] + writes + ["}", ""])[1 + i] == writes[i];
    TupleItemWritesAt(mangle, fs, |fs|, i);
  }

  lemma TupleReaderFacts(mangle: Mangler, name: string, fs: seq<Format>, i: nat)
    requires Resolved(Tuple(fs)) && i < |fs|
    ensures var de := DeserializationHelperLines(mangle, name, Tuple(fs));
      && |de| == |fs| + 5
      && de[1] == "return new " + QuoteType(Tuple(fs)) + "("
      && de[2 + i] == "    " + DeserializeExpr(mangle, fs[i]) + (if i < |fs| - 1 then "," else "")
  {
    var dh, tupleType := DeserializationHelperHeader(name, Tuple(fs)), QuoteType(Tuple(fs));
    var exprs := DeserializeEach(mangle, fs);
    var readLines := TupleItemReads(exprs, |fs|);
    assert DeserializationHelperLines(mangle, name, Tuple(fs)) == [dh, "return new " + tupleType + "("] + readLines + [");", "}", ""];
    assert ([dh, "return new " + tupleType + "("] + readLines + [");", "}", ""])[2 + i] == readLines[i];
    TupleItemReadsAt(exprs, |fs|, i);
    DeserializeEachAt(mangle, fs, i);
  }

  /**
   * A fixed-size array never puts its length on the wire: its serialization
   * helper checks the in-memory length against the declared size instead,
   * and its deserialization helper reads exactly that many elements.
   */
  lemma ArrayHelpersAgree(mangle: Mangler, name: string, g: Format, size: nat)
    requires Resolved(TupleArray(g, size))
    ensures var ser := SerializationHelperLines(mangle, name, TupleArray(g, size));
      && LengthWrite !in ser
      && ser[1] == "assert (value.length == " + NatToString(size) + ");"
      && ser[3] == "    " + SerializeValue(mangle, "item", g)
    ensures var de := DeserializationHelperLines(mangle, name, TupleArray(g, size));
      && LengthRead !in de
      && de[2] == "for (int i = 0; i < " + NatToString(size) + "; i++) {"
      && de[3] == "    obj[i] = " + DeserializeExpr(mangle, g) + ";"
    ensures SameRoute(mangle, "item", g, SerializeValue(mangle, "item", g), DeserializeExpr(mangle, g))
  {
    ArrayWriterFacts(mangle, name, g, size);
    ArrayReaderFacts(mangle, name, g, size);
    SerializeDeserializeAgree(mangle, "item", g);
  }

  lemma ArrayWriterFacts(mangle: Mangler, name: string, g: Format, size: nat)
    requires Resolved(TupleArray(g, size))
    ensures var ser := SerializationHelperLines(mangle, name, TupleArray(g, size));
      && LengthWrite !in ser
      && ser[1] == "assert (value.length == " + NatToString(size) + ");"
      && ser[3] == "    " + SerializeValue(mangle, "item", g)
  {
    var sh := SerializationHelperHeader(name, TupleArray(g, size));
    assert sh[1] == 't';
    ArrayWriterWritesNoLength(sh, NatToString(size), QuoteType(g), SerializeValue(mangle, "item", g));
  }

  lemma ArrayReaderFacts(mangle: Mangler, name: string, g: Format, size: nat)
    requires Resolved(TupleArray(g, size))
    ensures var de := DeserializationHelperLines(mangle, name, TupleArray(g, size));
      && LengthRead !in de
      && de[2] == "for (int i = 0; i < " + NatToString(size) + "; i++) {"
      && de[3] == "    obj[i] = " + DeserializeExpr(mangle, g) + ";"
  {
    var dh := DeserializationHelperHeader(name, TupleArray(g, size));
    assert dh[0] == 's';
    ArrayReaderReadsNoLength(dh, NatToString(size), QuoteType(g), DeserializeExpr(mangle, g));
  }

  lemma ArrayWriterWritesNoLength(header: string, size: string, elemType: string, write: string)
    requires |header| > 1 && header[1] == 't'
    ensures LengthWrite !in ArrayWriter(header, size, elemType, write)
  {
    var ser := ArrayWriter(header, size, elemType, write);
    var lenWrite := LengthWrite;
    assert lenWrite[0] == 's' && lenWrite[1] == 'e';
    forall i | 0 <= i < |ser| ensures ser[i] != lenWrite {
      if i == 0 {
        assert ser[0][1] == 't';
      } else {
        assert |ser[i]| == 0 || ser[i][0] != 's';
      }
    }
  }

  lemma ArrayReaderReadsNoLength(header: string, size: string, elemType: string, read: string)
    requires |header| > 0 && header[0] == 's'
    ensures LengthRead !in ArrayReader(header, size, elemType, read)
  {
    var de := ArrayReader(header, size, elemType, read);
    var lenRead := LengthRead;
    assert lenRead[0] == 'i';
    forall i | 0 <= i < |de| ensures de[i] != lenRead {
      assert |de[i]| == 0 || de[i][0] != 'i';
    }
  }
}
