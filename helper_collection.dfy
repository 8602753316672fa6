/**
 * The helper deduplication table of `output_trait_helpers`: every composite
 * sub-format of every container, recorded once under its mangled name, in a
 * map sorted by that name.
 */
module HelperCollection {
  import opened Text
  import opened Formats
  import opened SortedMaps
  import opened TypeMapper
  import opened Expressions

  type Table = seq<(string, Format)>

  /** The visitor closure: record a `needs_helper` format under its mangled name. */
  function Record(mangle: Mangler, t: Table, g: Format): Table {
    if NeedsHelper(g) then Insert(t, mangle(g), g) else t
  }

  /** The mangled names of the `needs_helper` formats among `gs`. */
  function HelperKeys(mangle: Mangler, gs: seq<Format>): set<string> {
    set g | g in gs && NeedsHelper(g) :: mangle(g)
  }

  /**
   * Every entry binds a `needs_helper` format that was visited to that
   * format's own mangled name, and the keys ascend strictly.
   */
  predicate WellFormed(mangle: Mangler, t: Table, gs: seq<Format>) {
    && StrictlySorted(t)
    && forall i :: 0 <= i < |t| ==> t[i].0 == mangle(t[i].1) && NeedsHelper(t[i].1) && t[i].1 in gs
  }

  /** The table after the visitor has seen `gs` in order. */
  function TableOf(mangle: Mangler, gs: seq<Format>): Table
    decreases |gs|
  {
    if |gs| == 0 then [] else Record(mangle, TableOf(mangle, gs[..|gs| - 1]), gs[|gs| - 1])
  }

  /**
   * The table stays well formed, and its key set is exactly the mangled names
   * of the `needs_helper` formats seen: a name seen twice is recorded once.
   */
  lemma {:induction false} TableOfWellFormed(mangle: Mangler, gs: seq<Format>)
    ensures WellFormed(mangle, TableOf(mangle, gs), gs)
    ensures Keys(TableOf(mangle, gs)) == HelperKeys(mangle, gs)
    decreases |gs|
  {
    if |gs| > 0 {
      var init, last := gs[..|gs| - 1], gs[|gs| - 1];
      TableOfWellFormed(mangle, init);
      RecordStep(mangle, TableOf(mangle, init), init, last);
      assert gs == init + [last];
    }
  }

  /** One visitor call keeps the table well formed and its keys exact. */
  lemma RecordStep(mangle: Mangler, t: Table, gs: seq<Format>, g: Format)
    requires WellFormed(mangle, t, gs) && Keys(t) == HelperKeys(mangle, gs)
    ensures WellFormed(mangle, Record(mangle, t, g), gs + [g])
    ensures Keys(Record(mangle, t, g)) == HelperKeys(mangle, gs + [g])
  {
    HelperKeysSnoc(mangle, gs, g);
    var r := Record(mangle, t, g);
    if NeedsHelper(g) {
      var k := mangle(g);
      InsertSorted(t, k, g);
      InsertKeys(t, k, g);
      InsertBindings(t, k, g);
      forall i | 0 <= i < |r|
        ensures r[i].0 == mangle(r[i].1) && NeedsHelper(r[i].1) && r[i].1 in gs + [g]
      {
        assert r[i] in r;
        if r[i].0 == k {
          KeyBoundOnce(r, r[i], (k, g));
        } else {
          var j :| 0 <= j < |t| && t[j] == r[i];
        }
      }
    } else {
      forall i | 0 <= i < |r| ensures r[i].1 in gs + [g] {
        assert r[i].1 in gs;
      }
    }
  }

  lemma HelperKeysSnoc(mangle: Mangler, gs: seq<Format>, g: Format)
    ensures HelperKeys(mangle, gs + [g])
         == HelperKeys(mangle, gs) + (if NeedsHelper(g) then {mangle(g)} else {})
  {
    var l, r := HelperKeys(mangle, gs + [g]), HelperKeys(mangle, gs) + (if NeedsHelper(g) then {mangle(g)} else {});
    forall k | k in l ensures k in r {
      var h :| h in gs + [g] && NeedsHelper(h) && mangle(h) == k;
    }
    forall k | k in r ensures k in l {
      if k !in HelperKeys(mangle, gs) {
        assert g in gs + [g];
      } else {
        var h :| h in gs && NeedsHelper(h) && mangle(h) == k;
        assert h in gs + [g];
      }
    }
  }

  /** The table `output_trait_helpers` builds from the whole registry. */
  function HelperTable(mangle: Mangler, reg: Registry): Table {
    TableOf(mangle, RegistryVisit(reg))
  }

  /**
   * `output_trait_helpers`, first half: visit every container of the registry
   * and record each `needs_helper` sub-format in a sorted table.
   */
  method CollectHelpers(mangle: Mangler, reg: Registry) returns (table: Table)
    ensures table == HelperTable(mangle, reg)
    ensures StrictlySorted(table)
    ensures Keys(table) == HelperKeys(mangle, RegistryVisit(reg))
  {
    TableOfWellFormed(mangle, RegistryVisit(reg));
    table := [];
    for i := 0 to |reg|
      invariant table == TableOf(mangle, RegistryVisit(reg[..i]))
    {
      var visited := ContainerVisit(reg[i].1);
      ghost var before := RegistryVisit(reg[..i]);
      assert before + visited[..0] == before;
      for j := 0 to |visited|
        invariant table == TableOf(mangle, before + visited[..j])
      {
        TableOfSnoc(mangle, before, visited, j);
        table := Record(mangle, table, visited[j]);
      }
      RegistryVisitSnoc(reg, i);
    }
    assert reg[..|reg|] == reg;
  }

  lemma TableOfSnoc(mangle: Mangler, before: seq<Format>, visited: seq<Format>, j: nat)
    requires j < |visited|
    ensures TableOf(mangle, before + visited[..j + 1])
         == Record(mangle, TableOf(mangle, before + visited[..j]), visited[j])
  {
    var seen := before + visited[..j + 1];
    assert seen[..|seen| - 1] == before + visited[..j];
  }

  lemma RegistryVisitSnoc(reg: Registry, i: nat)
    requires i < |reg|
    ensures RegistryVisit(reg[..i + 1]) == RegistryVisit(reg[..i]) + ContainerVisit(reg[i].1)
    ensures ContainerVisit(reg[i].1)[..|ContainerVisit(reg[i].1)|] == ContainerVisit(reg[i].1)
  {
    assert reg[..i + 1][..i] == reg[..i];
  }

  // ---------------------------------------------------------------------------
  // Every helper call the generated code makes names a helper that exists.

  /** A sub-format of a resolved format is resolved. */
  lemma {:induction false} VisitResolved(f: Format, g: Format)
    requires Resolved(f) && g in Visit(f)
    ensures Resolved(g)
    decreases f
  {
    VisitUnfold(f);
    if g != f {
      var i := VisitAllFrom(Children(f), g);
      VisitResolved(Children(f)[i], g);
    }
  }

  lemma VisitAllResolved(fs: seq<Format>, g: Format)
    requires AllResolved(fs) && g in VisitAll(fs)
    ensures Resolved(g)
  {
    var i := VisitAllFrom(fs, g);
    VisitResolved(fs[i], g);
  }

  /** Everything the registry scan visits in a resolved registry is resolved. */
  lemma {:induction false} RegistryVisitResolved(reg: Registry, g: Format)
    requires RegistryResolved(reg) && g in RegistryVisit(reg)
    ensures Resolved(g)
    decreases |reg|
  {
    var init, c := reg[..|reg| - 1], reg[|reg| - 1].1;
    if g in RegistryVisit(init) {
      RegistryVisitResolved(init, g);
    } else {
      assert ContainerResolved(c);
      match c
      case NewTypeStruct(f) => VisitResolved(f, g);
      case TupleStruct(fs) => VisitAllResolved(fs, g);
      case Struct(fields) => VisitAllResolved(FieldFormats(fields), g);
      case Enum(vs) =>
        var i := VariantsVisitFrom(vs, g);
        assert VariantResolved(vs[i].1.value);
        match vs[i].1.value
        case NewTypeVariant(f) => VisitResolved(f, g);
        case TupleVariant(fs) => VisitAllResolved(fs, g);
        case StructVariant(fields) => VisitAllResolved(FieldFormats(fields), g);
    }
  }

  /** Every table entry holds a resolved `needs_helper` format. */
  lemma TableEntriesResolved(mangle: Mangler, reg: Registry)
    requires RegistryResolved(reg)
    ensures forall i :: 0 <= i < |HelperTable(mangle, reg)| ==>
      NeedsHelper(HelperTable(mangle, reg)[i].1) && Resolved(HelperTable(mangle, reg)[i].1)
  {
    var t := HelperTable(mangle, reg);
    TableOfWellFormed(mangle, RegistryVisit(reg));
    forall i | 0 <= i < |t| ensures NeedsHelper(t[i].1) && Resolved(t[i].1) {
      RegistryVisitResolved(reg, t[i].1);
    }
  }

  /**
   * The helper table is closed: a helper routine for an entry calls the
   * helpers of the entry's `needs_helper` children, and those are entries too.
   */
  lemma HelperBodiesResolve(mangle: Mangler, reg: Registry, i: nat, c: Format)
    requires i < |HelperTable(mangle, reg)|
    requires c in Children(HelperTable(mangle, reg)[i].1) && NeedsHelper(c)
    ensures mangle(c) in Keys(HelperTable(mangle, reg))
  {
    var t := HelperTable(mangle, reg);
    TableOfWellFormed(mangle, RegistryVisit(reg));
    RegistryVisitClosed(reg, t[i].1, c);
  }

  /**
   * A container field whose format needs a helper, anywhere in the registry,
   * finds that helper in the table, whichever container it sits in.
   */
  lemma FieldHelpersResolve(mangle: Mangler, reg: Registry, i: nat, f: Format)
    requires i < |reg| && f in ContainerVisit(reg[i].1) && NeedsHelper(f)
    ensures mangle(f) in Keys(HelperTable(mangle, reg))
  {
    TableOfWellFormed(mangle, RegistryVisit(reg));
    RegistryVisitReaches(reg, i, f);
  }

  /** The names the emitted helper pairs are declared under, in emission order. */
  function HelperNames(t: Table): (names: seq<string>)
    ensures |names| == |t|
  {
    seq(|t|, i requires 0 <= i < |t| => t[i].0)
  }

  /**
   * Deduplication and order of the emitted helpers: the declared names are
   * exactly the mangled names of the `needs_helper` formats the scan visits,
   * each declared once, in strictly ascending order.
   */
  lemma HelpersDeclaredOnceInOrder(mangle: Mangler, reg: Registry)
    ensures var names := HelperNames(HelperTable(mangle, reg));
      && (forall i, j :: 0 <= i < j < |names| ==> LexLess(names[i], names[j]))
      && (forall i, j :: 0 <= i < j < |names| ==> names[i] != names[j])
      && (set i | 0 <= i < |names| :: names[i]) == HelperKeys(mangle, RegistryVisit(reg))
  {
    var t := HelperTable(mangle, reg);
    TableOfWellFormed(mangle, RegistryVisit(reg));
    var names := HelperNames(t);
    forall i, j | 0 <= i < j < |names| ensures names[i] != names[j] {
      LexLessIrreflexive(names[i]);
    }
    forall k | k in Keys(t) ensures k in (set i | 0 <= i < |names| :: names[i]) {
      var i :| 0 <= i < |t| && t[i].0 == k;
      assert names[i] == k;
    }
  }
}
