/**
 * The schema grammar the generator consumes: `Format`, `Named`,
 * `VariantFormat`, `ContainerFormat` and the `Registry`, together with the
 * depth-first traversal (`visit`) that the helper table is built from.
 */
module Formats {

  /** The seventeen primitive shapes, each with its own runtime call. */
  datatype Primitive =
    | Unit | Bool
    | I8 | I16 | I32 | I64 | I128
    | U8 | U16 | U32 | U64 | U128
    | F32 | F64
    | Char | Str | Bytes

  /**
   * The shape of a value. `Variable` is the unresolved placeholder left by
   * inference; the primitive shapes are grouped under `Prim`.
   */
  datatype Format =
    | Variable
    | TypeName(name: string)
    | Prim(p: Primitive)
    | Option(inner: Format)
    | Seq(elem: Format)
    | Map(key: Format, value: Format)
    | Tuple(items: seq<Format>)
    | TupleArray(content: Format, size: nat)

  datatype Named<T> = Named(name: string, value: T)

  datatype VariantFormat =
    | VariableVariant
    | UnitVariant
    | NewTypeVariant(format: Format)
    | TupleVariant(formats: seq<Format>)
    | StructVariant(fields: seq<Named<Format>>)

  /** An enum's variants: a `BTreeMap<u32, Named<VariantFormat>>` as its ascending entry list. */
  type Variants = seq<(nat, Named<VariantFormat>)>

  datatype ContainerFormat =
    | UnitStruct
    | NewTypeStruct(format: Format)
    | TupleStruct(formats: seq<Format>)
    | Struct(fields: seq<Named<Format>>)
    | Enum(variants: Variants)

  /** Named containers, in the registry's iteration order. */
  type Registry = seq<(string, ContainerFormat)>

  /** The formats that have a fixed `serialize_<kind>` / `deserialize_<kind>` primitive. */
  predicate IsPrimitive(f: Format) {
    f.Prim?
  }

  /** `needs_helper`: the composite shapes that get a shared TraitHelpers routine. */
  predicate NeedsHelper(f: Format) {
    f.Option? || f.Seq? || f.Map? || f.Tuple? || f.TupleArray?
  }

  /** The formats directly inside `f`, in the order they are written. */
  function Children(f: Format): (cs: seq<Format>)
    ensures forall c :: c in cs ==> c < f
  {
    match f
    case Option(g) => [g]
    case Seq(g) => [g]
    case Map(k, v) => [k, v]
    case Tuple(fs) => fs
    case TupleArray(g, _) => [g]
    case _ => []
  }

  /** No `Variable` placeholder anywhere inside the format. */
  predicate Resolved(f: Format) {
    match f
    case Variable => false
    case Option(g) => Resolved(g)
    case Seq(g) => Resolved(g)
    case Map(k, v) => Resolved(k) && Resolved(v)
    case Tuple(fs) => forall g :: g in fs ==> Resolved(g)
    case TupleArray(g, _) => Resolved(g)
    case _ => true
  }

  predicate AllResolved(fs: seq<Format>) {
    forall i :: 0 <= i < |fs| ==> Resolved(fs[i])
  }

  predicate FieldsResolved(fields: seq<Named<Format>>) {
    forall i :: 0 <= i < |fields| ==> Resolved(fields[i].value)
  }

  predicate VariantResolved(v: VariantFormat) {
    match v
    case VariableVariant => false
    case UnitVariant => true
    case NewTypeVariant(f) => Resolved(f)
    case TupleVariant(fs) => AllResolved(fs)
    case StructVariant(fields) => FieldsResolved(fields)
  }

  /** The `BTreeMap<u32, _>` invariant of an enum's variants: tags strictly ascending. */
  predicate TagsAscending(vs: Variants) {
    forall i, j :: 0 <= i < j < |vs| ==> vs[i].0 < vs[j].0
  }

  predicate ContainerResolved(c: ContainerFormat) {
    match c
    case UnitStruct => true
    case NewTypeStruct(f) => Resolved(f)
    case TupleStruct(fs) => AllResolved(fs)
    case Struct(fields) => FieldsResolved(fields)
    case Enum(vs) => forall i :: 0 <= i < |vs| ==> VariantResolved(vs[i].1.value)
  }

  /** A registry the generator can run on without panicking. */
  predicate RegistryResolved(reg: Registry) {
    forall i :: 0 <= i < |reg| ==> ContainerResolved(reg[i].1)
  }

  // ---------------------------------------------------------------------------
  // Traversal. serde_reflection's `visit` calls the visitor on every sub-format,
  // children first and the format itself last.

  function Visit(f: Format): (r: seq<Format>)
    ensures |r| > 0 && r[|r| - 1] == f
    decreases f, 1
  {
    match f
    case Option(g) => Visit(g) + [f]
    case Seq(g) => Visit(g) + [f]
    case Map(k, v) => Visit(k) + Visit(v) + [f]
    case Tuple(fs) => VisitAll(fs) + [f]
    case TupleArray(g, _) => Visit(g) + [f]
    case _ => [f]
  }

  function VisitAll(fs: seq<Format>): seq<Format>
    decreases fs, 0
  {
    if |fs| == 0 then [] else Visit(fs[0]) + VisitAll(fs[1..])
  }

  /** Visiting a format is visiting its children in order, then the format itself. */
  lemma VisitUnfold(f: Format)
    ensures Visit(f) == VisitAll(Children(f)) + [f]
  {
    match f
    case Option(g) => VisitSingle(g);
    case Seq(g) => VisitSingle(g);
    case TupleArray(g, _) => VisitSingle(g);
    case Map(k, v) =>
      assert [k, v][0] == k && [k, v][1..] == [v];
      VisitSingle(v);
      assert VisitAll([k, v]) == Visit(k) + Visit(v);
    case Tuple(fs) =>
    case _ => assert Children(f) == [];
  }

  lemma VisitSingle(g: Format)
    ensures VisitAll([g]) == Visit(g)
  {
    assert [g][0] == g && [g][1..] == [];
    assert VisitAll([g]) == Visit(g) + [];
  }

  function FieldFormats(fields: seq<Named<Format>>): (fs: seq<Format>)
    ensures |fs| == |fields|
    ensures forall i :: 0 <= i < |fields| ==> fs[i] == fields[i].value
  {
    seq(|fields|, i requires 0 <= i < |fields| => fields[i].value)
  }

  function VariantVisit(v: VariantFormat): seq<Format> {
    match v
    case VariableVariant => []
    case UnitVariant => []
    case NewTypeVariant(f) => Visit(f)
    case TupleVariant(fs) => VisitAll(fs)
    case StructVariant(fields) => VisitAll(FieldFormats(fields))
  }

  function VariantsVisit(vs: Variants): seq<Format> {
    if |vs| == 0 then [] else VariantVisit(vs[0].1.value) + VariantsVisit(vs[1..])
  }

  /** Everything `ContainerFormat::visit` hands to the visitor, in order. */
  function ContainerVisit(c: ContainerFormat): seq<Format> {
    match c
    case UnitStruct => []
    case NewTypeStruct(f) => Visit(f)
    case TupleStruct(fs) => VisitAll(fs)
    case Struct(fields) => VisitAll(FieldFormats(fields))
    case Enum(vs) => VariantsVisit(vs)
  }

  /** Everything visited when every container of the registry is visited in turn. */
  function RegistryVisit(reg: Registry): seq<Format> {
    if |reg| == 0 then [] else RegistryVisit(reg[..|reg| - 1]) + ContainerVisit(reg[|reg| - 1].1)
  }

  // ---------------------------------------------------------------------------
  // What the traversal reaches.

  /** A format visited from `fs[i]` is visited from the whole list. */
  lemma {:induction false} VisitAllReaches(fs: seq<Format>, i: nat, g: Format)
    requires i < |fs| && g in Visit(fs[i])
    ensures g in VisitAll(fs)
    decreases i
  {
    assert VisitAll(fs) == Visit(fs[0]) + VisitAll(fs[1..]);
    if i > 0 {
      assert fs[1..][i - 1] == fs[i];
      VisitAllReaches(fs[1..], i - 1, g);
    }
  }

  /** A format visited from the list is visited from one of its elements. */
  lemma {:induction false} VisitAllFrom(fs: seq<Format>, g: Format) returns (i: nat)
    requires g in VisitAll(fs)
    ensures i < |fs| && g in Visit(fs[i])
    decreases |fs|
  {
    assert VisitAll(fs) == Visit(fs[0]) + VisitAll(fs[1..]);
    if g in Visit(fs[0]) {
      i := 0;
    } else {
      var j := VisitAllFrom(fs[1..], g);
      assert fs[1..][j] == fs[j + 1];
      i := j + 1;
    }
  }

  /**
   * The traversal is closed under taking children: whatever is visited from
   * `f` has its own children visited from `f` too.
   */
  lemma {:induction false} VisitClosed(f: Format, v: Format, c: Format)
    requires v in Visit(f) && c in Children(v)
    ensures c in Visit(f)
    decreases f
  {
    var cs := Children(f);
    VisitUnfold(f);
    if v == f {
      var i :| 0 <= i < |cs| && cs[i] == c;
      VisitAllReaches(cs, i, c);
    } else {
      assert v in VisitAll(cs);
      var i := VisitAllFrom(cs, v);
      VisitClosed(cs[i], v, c);
      VisitAllReaches(cs, i, c);
    }
  }

  /** A format visited from `f` is visited from every list that visits `f`. */
  lemma VisitAllClosed(fs: seq<Format>, v: Format, c: Format)
    requires v in VisitAll(fs) && c in Children(v)
    ensures c in VisitAll(fs)
  {
    var i := VisitAllFrom(fs, v);
    VisitClosed(fs[i], v, c);
    VisitAllReaches(fs, i, c);
  }

  lemma {:induction false} VariantsVisitReaches(vs: Variants, i: nat, g: Format)
    requires i < |vs| && g in VariantVisit(vs[i].1.value)
    ensures g in VariantsVisit(vs)
    decreases i
  {
    assert VariantsVisit(vs) == VariantVisit(vs[0].1.value) + VariantsVisit(vs[1..]);
    if i > 0 {
      assert vs[1..][i - 1] == vs[i];
      VariantsVisitReaches(vs[1..], i - 1, g);
    }
  }

  lemma {:induction false} VariantsVisitFrom(vs: Variants, g: Format) returns (i: nat)
    requires g in VariantsVisit(vs)
    ensures i < |vs| && g in VariantVisit(vs[i].1.value)
    decreases |vs|
  {
    assert VariantsVisit(vs) == VariantVisit(vs[0].1.value) + VariantsVisit(vs[1..]);
    if g in VariantVisit(vs[0].1.value) {
      i := 0;
    } else {
      var j := VariantsVisitFrom(vs[1..], g);
      assert vs[1..][j] == vs[j + 1];
      i := j + 1;
    }
  }

  lemma VariantVisitClosed(v: VariantFormat, x: Format, c: Format)
    requires x in VariantVisit(v) && c in Children(x)
    ensures c in VariantVisit(v)
  {
    match v
    case NewTypeVariant(f) => VisitClosed(f, x, c);
    case TupleVariant(fs) => VisitAllClosed(fs, x, c);
    case StructVariant(fields) => VisitAllClosed(FieldFormats(fields), x, c);
  }

  lemma ContainerVisitClosed(k: ContainerFormat, x: Format, c: Format)
    requires x in ContainerVisit(k) && c in Children(x)
    ensures c in ContainerVisit(k)
  {
    match k
    case NewTypeStruct(f) => VisitClosed(f, x, c);
    case TupleStruct(fs) => VisitAllClosed(fs, x, c);
    case Struct(fields) => VisitAllClosed(FieldFormats(fields), x, c);
    case Enum(vs) =>
      var i := VariantsVisitFrom(vs, x);
      VariantVisitClosed(vs[i].1.value, x, c);
      VariantsVisitReaches(vs, i, c);
  }

  /** A format visited while scanning container `i` is visited by the registry scan. */
  lemma {:induction false} RegistryVisitReaches(reg: Registry, i: nat, g: Format)
    requires i < |reg| && g in ContainerVisit(reg[i].1)
    ensures g in RegistryVisit(reg)
    decreases |reg|
  {
    if i < |reg| - 1 {
      assert reg[..|reg| - 1][i] == reg[i];
      RegistryVisitReaches(reg[..|reg| - 1], i, g);
    }
  }

  /**
   * The registry scan is closed under taking children: every format it visits
   * has all of its children visited as well.
   */
  lemma {:induction false} RegistryVisitClosed(reg: Registry, x: Format, c: Format)
    requires x in RegistryVisit(reg) && c in Children(x)
    ensures c in RegistryVisit(reg)
    decreases |reg|
  {
    var init := reg[..|reg| - 1];
    if x in RegistryVisit(init) {
      RegistryVisitClosed(init, x, c);
    } else {
      ContainerVisitClosed(reg[|reg| - 1].1, x, c);
    }
  }
}
