/**
 * `quote_type` / `quote_types`: the Dart type that holds a value of a format.
 */
module TypeMapper {
  import opened Text
  import opened Formats

  /** The Dart type for `f`; the generator panics on the `Variable` placeholder. */
  function QuoteType(f: Format): (r: string)
    requires Resolved(f)
    ensures f.TypeName? ==> r == f.name
    decreases f, 2
  {
    match f
    case TypeName(x) => x
    case Prim(p) => PrimitiveType(p)
    case Option(g) => "Optional<" + QuoteType(g) + ">"
    case Seq(g) => "List<" + QuoteType(g) + ">"
    case Map(k, v) => "Map<" + QuoteType(k) + ", " + QuoteType(v) + ">"
    case Tuple(fs) => "Tuple" + NatToString(|fs|) + "<" + QuoteTypes(fs) + ">"
    case TupleArray(g, _) => "List<" + QuoteType(g) + ">"
  }

  /** The Dart type of a primitive. */
  function PrimitiveType(p: Primitive): string {
    match p
    case Unit => "Unit"
    case Bool => "bool"
    case I8 => "int"
    case I16 => "int"
    case I32 => "int"
    case I64 => "int"
    case I128 => "Int128"
    case U8 => "int"
    case U16 => "int"
    case U32 => "int"
    case U64 => "int"
    case U128 => "Int128"
    case F32 => "float"
    case F64 => "double"
    case Char => "int"
    case Str => "String"
    case Bytes => "Bytes"
  }

  /** The Dart types of a list of formats, comma-space separated, in order. */
  function QuoteTypes(fs: seq<Format>): string
    requires forall g :: g in fs ==> Resolved(g)
    decreases fs, 1
  {
    Join(", ", QuoteEach(fs))
  }

  /** `QuoteType` of each element, in order. */
  function QuoteEach(fs: seq<Format>): (r: seq<string>)
    requires forall g :: g in fs ==> Resolved(g)
    ensures |r| == |fs|
    decreases fs, 0
  {
    if |fs| == 0 then [] else [QuoteType(fs[0])] + QuoteEach(fs[1..])
  }

  lemma {:induction false} QuoteEachAt(fs: seq<Format>, i: nat)
    requires forall g :: g in fs ==> Resolved(g)
    requires i < |fs|
    ensures QuoteEach(fs)[i] == QuoteType(fs[i])
    decreases i
  {
    if i > 0 {
      QuoteEachAt(fs[1..], i - 1);
    }
  }

  /**
   * The tuple type lists its element types in their original order: quoting
   * two non-empty lists one after the other is quoting their concatenation.
   */
  lemma QuoteTypesAppend(a: seq<Format>, b: seq<Format>)
    requires |a| > 0 && |b| > 0
    requires forall g :: g in a + b ==> Resolved(g)
    ensures QuoteTypes(a + b) == QuoteTypes(a) + ", " + QuoteTypes(b)
  {
    assert QuoteEach(a + b) == QuoteEach(a) + QuoteEach(b) by {
      forall i | 0 <= i < |a + b|
        ensures QuoteEach(a + b)[i] == (QuoteEach(a) + QuoteEach(b))[i]
      {
        QuoteEachAt(a + b, i);
        if i < |a| {
          QuoteEachAt(a, i);
        } else {
          QuoteEachAt(b, i - |a|);
        }
      }
    }
    JoinAppend(", ", QuoteEach(a), QuoteEach(b));
  }

  // ---------------------------------------------------------------------------
  // The fixed size of an array never reaches the type.

  /** `f` with every fixed-size array replaced by a sequence of the same content. */
  function EraseSizes(f: Format): (r: Format)
    ensures Resolved(f) ==> Resolved(r)
    decreases f, 1
  {
    match f
    case Option(g) => Option(EraseSizes(g))
    case Seq(g) => Seq(EraseSizes(g))
    case Map(k, v) => Map(EraseSizes(k), EraseSizes(v))
    case Tuple(fs) => Tuple(EraseEach(fs))
    case TupleArray(g, _) => Seq(EraseSizes(g))
    case _ => f
  }

  function EraseEach(fs: seq<Format>): (r: seq<Format>)
    ensures |r| == |fs|
    ensures (forall g :: g in fs ==> Resolved(g)) ==> forall g :: g in r ==> Resolved(g)
    decreases fs, 0
  {
    if |fs| == 0 then [] else [EraseSizes(fs[0])] + EraseEach(fs[1..])
  }

  /**
   * `quote_type` cannot tell a fixed-size array from a sequence: the type of
   * any format equals the type of the format with every size erased.
   */
  lemma {:induction false} QuoteTypeIgnoresSizes(f: Format)
    requires Resolved(f)
    ensures QuoteType(EraseSizes(f)) == QuoteType(f)
    decreases f, 1
  {
    match f
    case Option(g) => QuoteTypeIgnoresSizes(g);
    case Seq(g) => QuoteTypeIgnoresSizes(g);
    case Map(k, v) => QuoteTypeIgnoresSizes(k); QuoteTypeIgnoresSizes(v);
    case Tuple(fs) => QuoteEachIgnoresSizes(fs);
    case TupleArray(g, _) => QuoteTypeIgnoresSizes(g);
    case _ =>
  }

  lemma {:induction false} QuoteEachIgnoresSizes(fs: seq<Format>)
    requires forall g :: g in fs ==> Resolved(g)
    ensures QuoteEach(EraseEach(fs)) == QuoteEach(fs)
    decreases fs, 0
  {
    if |fs| > 0 {
      QuoteTypeIgnoresSizes(fs[0]);
      QuoteEachIgnoresSizes(fs[1..]);
    }
  }

  /** In particular, arrays of every size and sequences of the same content share one type. */
  lemma ArrayTypeIsSeqType(g: Format, n: nat, m: nat)
    requires Resolved(g)
    ensures QuoteType(TupleArray(g, n)) == QuoteType(TupleArray(g, m)) == QuoteType(Seq(g))
  {
  }

  /** The first character of a composite type names its outer shape. */
  function ShapeLetter(f: Format): char
    requires NeedsHelper(f)
  {
    if f.Option? then 'O' else if f.Map? then 'M' else if f.Tuple? then 'T' else 'L'
  }

  lemma CompositeTypeLetter(f: Format)
    requires Resolved(f) && NeedsHelper(f)
    ensures |QuoteType(f)| > 0 && QuoteType(f)[0] == ShapeLetter(f)
  {
    match f
    case Option(g) => assert QuoteType(f) == "Optional<" + QuoteType(g) + ">";
    case Seq(g) => assert QuoteType(f) == "List<" + QuoteType(g) + ">";
    case Map(k, v) => assert QuoteType(f) == "Map<" + QuoteType(k) + ", " + QuoteType(v) + ">";
    case Tuple(fs) => assert QuoteType(f) == "Tuple" + NatToString(|fs|) + "<" + QuoteTypes(fs) + ">";
    case TupleArray(g, _) => assert QuoteType(f) == "List<" + QuoteType(g) + ">";
  }

  /**
   * Option, Map and Tuple have types of their own: two composite formats
   * with the same type have the same outer shape, a sequence and a
   * fixed-size array counting as one shape.
   */
  lemma CompositeTypesKeepShape(f: Format, g: Format)
    requires Resolved(f) && Resolved(g) && NeedsHelper(f) && NeedsHelper(g)
    requires QuoteType(f) == QuoteType(g)
    ensures f.Option? <==> g.Option?
    ensures f.Map? <==> g.Map?
    ensures f.Tuple? <==> g.Tuple?
    ensures f.Seq? || f.TupleArray? <==> g.Seq? || g.TupleArray?
  {
    CompositeTypeLetter(f);
    CompositeTypeLetter(g);
  }
}
