/** `Parser.recovery_contraction`: every package of the protocol document
    has the contractions named in its `define` list, then in its
    `structure` list, spliced in place. The document is changed package by
    package, so an error leaves the packages before it expanded. */
module Recovery {
  import opened Wrappers
  import opened Schema
  import C = Contractions

  /** A `define` entry is the name it holds. */
  function NameKey(x: string): Option<string> { Some(x) }

  /** A `structure` entry names its field; a tuple of marker names never
      equals a contraction's (string) name. */
  function FieldKey(f: FieldSpec): Option<string>
  {
    if f.name.Single? then Some(f.name.name) else None
  }

  function DefineFragments(cs: map<string, Contraction>): map<string, seq<string>>
  {
    map c | c in cs :: cs[c].define
  }

  function StructureFragments(cs: map<string, Contraction>): map<string, seq<FieldSpec>>
  {
    map c | c in cs :: cs[c].structure
  }

  /** A bare-name `define` is a string, so `set(...)` of it is its
      characters; a one-character contraction name among them sends
      `recovery_define` into `str + list`, a TypeError. */
  predicate BareDefineClash(s: string, cs: map<string, Contraction>)
  {
    exists i :: 0 <= i < |s| && [s[i]] in cs
  }

  /** The `define` value after `recovery_define`, the found names being
      visited in `order`. */
  function DefineAfter(d: DefineSpec, cs: map<string, Contraction>, order: seq<string>): (r: Result<DefineSpec>)
    ensures r.Err? <==> d.OneName? && BareDefineClash(d.name, cs)
    ensures r.Ok? && d.OneName? ==> r.value == d
  {
    match d
    case Names(ns) => Ok(Names(C.ExpandInOrder(ns, order, NameKey, DefineFragments(cs))))
    case OneName(s) => if BareDefineClash(s, cs) then Err(BadDefine) else Ok(d)
  }

  /** A package and what `recovery_contraction` leaves of it, with the error
      that stopped it there, given the orders the two found sets were
      visited in. The `define` list is replaced before the structure is
      looked at, so a package without structure keeps its expanded define.
      The structure pass looks each place up afresh, as the define pass
      does; as written it uses places from the list before any splice
      (`Contractions.ExpandInOrderAsWritten`, see `StaleStructureIndex`). */
  function Recover(p: Package, cs: map<string, Contraction>, dOrder: seq<string>, sOrder: seq<string>): (r: (Package, Option<Error>))
    ensures r.1.None? <==> !(p.define.OneName? && BareDefineClash(p.define.name, cs)) && p.structure.Some?
    ensures r.0.name == p.name && r.0.response == p.response
  {
    match DefineAfter(p.define, cs, dOrder)
    case Err(e) => (p, Some(e))
    case Ok(d) =>
      match p.structure
      case None => (p.(define := d), Some(NoStructure))
      case Some(fields) =>
        (p.(define := d, structure := Some(C.ExpandInOrder(fields, sOrder, FieldKey, StructureFragments(cs)))), None)
  }

  /** The order visits exactly the contractions the `define` list names, once each. */
  predicate VisitsDefine(p: Package, cs: map<string, Contraction>, dOrder: seq<string>)
  {
    C.Distinct(dOrder) &&
    C.Elems(dOrder) == (if p.define.Names? then C.Found(p.define.names, NameKey, DefineFragments(cs)) else {})
  }

  /** The order visits exactly the contractions the structure names, once each. */
  predicate VisitsStructure(p: Package, cs: map<string, Contraction>, sOrder: seq<string>)
  {
    C.Distinct(sOrder) &&
    C.Elems(sOrder) == (if p.structure.Some? then C.Found(p.structure.value, FieldKey, StructureFragments(cs)) else {})
  }

  predicate Visits(p: Package, cs: map<string, Contraction>, dOrder: seq<string>, sOrder: seq<string>)
  {
    VisitsDefine(p, cs, dOrder) && VisitsStructure(p, cs, sOrder)
  }

  /** No contraction names a contraction, and each list names each
      contraction at most once. */
  predicate WellFormed(p: Package, cs: map<string, Contraction>)
  {
    C.Clean(NameKey, DefineFragments(cs)) && C.Clean(FieldKey, StructureFragments(cs)) &&
    (p.define.Names? ==> C.AtMostOnce(p.define.names, NameKey, DefineFragments(cs))) &&
    (p.structure.Some? ==> C.AtMostOnce(p.structure.value, FieldKey, StructureFragments(cs)))
  }

  /** The protocol document: the packages are rewritten in place. */
  class Protocol {
    var packages: seq<Package>
    const contractions: map<string, Contraction>

    constructor (packages: seq<Package>, contractions: map<string, Contraction>)
      ensures this.packages == packages && this.contractions == contractions
    {
      this.packages := packages;
      this.contractions := contractions;
    }

    /** One turn of `recovery_contraction`'s loop: the package as it is
        left, and the error that stopped the walk, if any. */
    method RecoverPackage(p: Package) returns (q: Package, err: Option<Error>, ghost dOrder: seq<string>, ghost sOrder: seq<string>)
      ensures VisitsDefine(p, contractions, dOrder)
      ensures err.None? ==> VisitsStructure(p, contractions, sOrder)
      ensures Recover(p, contractions, dOrder, sOrder) == (q, err)
    {
      var define := p.define;
      dOrder, sOrder := [], [];
      match p.define {
        case Names(ns) =>
          var expanded, order := C.ExpandList(ns, NameKey, DefineFragments(contractions));
          define := Names(expanded);
          dOrder := order;
        case OneName(s) =>
          if BareDefineClash(s, contractions) {
            return p, Some(BadDefine), dOrder, sOrder;
          }
      }
      if p.structure.None? {
        return p.(define := define), Some(NoStructure), dOrder, sOrder;
      }
      var fields, order := C.ExpandList(p.structure.value, FieldKey, StructureFragments(contractions));
      sOrder := order;
      return p.(define := define, structure := Some(fields)), None, dOrder, sOrder;
    }

    /** `recovery_contraction`: package by package, `define` first, then
        `structure`; the first error stops the walk with the package it hit
        partly treated and the later ones untouched. */
    method RecoveryContraction() returns (err: Option<Error>, ghost done: nat,
                                         ghost dOrders: seq<seq<string>>, ghost sOrders: seq<seq<string>>)
      modifies this
      ensures |packages| == |old(packages)| && done <= |packages|
      ensures err.None? ==> done == |packages|
      ensures |dOrders| == |sOrders| == (if err.Some? then done + 1 else done) <= |packages|
      ensures forall i :: 0 <= i < done ==>
                Visits(old(packages)[i], contractions, dOrders[i], sOrders[i]) &&
                Recover(old(packages)[i], contractions, dOrders[i], sOrders[i]) == (packages[i], None)
      ensures err.Some? ==>
                VisitsDefine(old(packages)[done], contractions, dOrders[done]) &&
                Recover(old(packages)[done], contractions, dOrders[done], sOrders[done]) == (packages[done], err)
      ensures forall i :: |dOrders| <= i < |packages| ==> packages[i] == old(packages)[i]
    {
      dOrders, sOrders := [], [];
      var i := 0;
      while i < |packages|
        invariant 0 <= i <= |packages| == |old(packages)|
        invariant |dOrders| == |sOrders| == i
        invariant forall j :: 0 <= j < i ==>
                    Visits(old(packages)[j], contractions, dOrders[j], sOrders[j]) &&
                    Recover(old(packages)[j], contractions, dOrders[j], sOrders[j]) == (packages[j], None)
        invariant forall j :: i <= j < |packages| ==> packages[j] == old(packages)[j]
      {
        var q, e, dOrder, sOrder := RecoverPackage(packages[i]);
        packages := packages[i := q];
        dOrders, sOrders := dOrders + [dOrder], sOrders + [sOrder];
        if e.Some? {
          return e, i, dOrders, sOrders;
        }
        i := i + 1;
      }
      err, done := None, i;
    }
  }

  // ---------------------------------------------------------------------
  // Properties

  /** Whatever order the found sets come in, a well-formed package ends up
      with every contraction name replaced by its list, in place. */
  lemma RecoverExpandsAll(p: Package, cs: map<string, Contraction>, dOrder: seq<string>, sOrder: seq<string>)
    requires Visits(p, cs, dOrder, sOrder) && WellFormed(p, cs)
    requires Recover(p, cs, dOrder, sOrder).1.None?
    ensures var q := Recover(p, cs, dOrder, sOrder).0;
            (p.define.Names? ==> q.define == Names(C.ExpandAll(p.define.names, NameKey, DefineFragments(cs)))) &&
            q.structure == Some(C.ExpandAll(p.structure.value, FieldKey, StructureFragments(cs)))
  {
    if p.define.Names? {
      C.ExpandListMeaning(p.define.names, dOrder, NameKey, DefineFragments(cs));
    }
    C.ExpandListMeaning(p.structure.value, sOrder, FieldKey, StructureFragments(cs));
  }

  lemma ElemsEmpty(order: seq<string>)
    requires C.Elems(order) == {}
    ensures order == []
  {
  }

  /** Recovering a recovered package changes nothing: the expanded lists
      name no contraction, so the second pass finds nothing to splice. */
  lemma RecoverIdempotent(p: Package, cs: map<string, Contraction>, dOrder: seq<string>, sOrder: seq<string>,
                          dOrder': seq<string>, sOrder': seq<string>)
    requires Visits(p, cs, dOrder, sOrder) && WellFormed(p, cs)
    requires Recover(p, cs, dOrder, sOrder).1.None?
    requires Visits(Recover(p, cs, dOrder, sOrder).0, cs, dOrder', sOrder')
    ensures Recover(Recover(p, cs, dOrder, sOrder).0, cs, dOrder', sOrder') == Recover(p, cs, dOrder, sOrder)
  {
    var q := Recover(p, cs, dOrder, sOrder).0;
    RecoverExpandsAll(p, cs, dOrder, sOrder);
    if p.define.Names? {
      C.ExpandAllComplete(p.define.names, NameKey, DefineFragments(cs));
      NothingFound(q.define.names, NameKey, DefineFragments(cs));
    }
    C.ExpandAllComplete(p.structure.value, FieldKey, StructureFragments(cs));
    NothingFound(q.structure.value, FieldKey, StructureFragments(cs));
    ElemsEmpty(dOrder');
    ElemsEmpty(sOrder');
  }

  lemma NothingFound<T>(items: seq<T>, key: T -> Option<string>, frags: map<string, seq<T>>)
    requires C.NoContraction(items, key, frags)
    ensures C.Found(items, key, frags) == {}
  {
  }

  /** A package whose lists name no contraction is left as it was. */
  lemma RecoverUnchanged(p: Package, cs: map<string, Contraction>, dOrder: seq<string>, sOrder: seq<string>)
    requires Visits(p, cs, dOrder, sOrder) && p.structure.Some?
    requires p.define.Names? && C.NoContraction(p.define.names, NameKey, DefineFragments(cs))
    requires C.NoContraction(p.structure.value, FieldKey, StructureFragments(cs))
    ensures Recover(p, cs, dOrder, sOrder) == (p, None)
  {
    NothingFound(p.define.names, NameKey, DefineFragments(cs));
    NothingFound(p.structure.value, FieldKey, StructureFragments(cs));
    ElemsEmpty(dOrder);
    ElemsEmpty(sOrder);
  }

  const RepeatContractions := map["c" := Contraction(["a"], [])]
  const RepeatPackage := Package("p", Some([]), Names(["c", "c"]), None)

  lemma RepeatFragments()
    ensures DefineFragments(RepeatContractions) == map["c" := ["a"]]
    ensures StructureFragments(RepeatContractions) == map["c" := []]
  {
  }

  /** Both define lists below name the one contraction `c`, so visiting
      `c` alone is a complete visit. */
  lemma RepeatVisits(names: seq<string>)
    requires names == ["c", "c"] || names == ["a", "c"]
    ensures Visits(RepeatPackage.(define := Names(names)), RepeatContractions, ["c"], [])
  {
    RepeatFragments();
    assert C.Mentions(names, NameKey, "c") by {
      assert NameKey(names[1]) == Some("c");
    }
    assert C.Found(names, NameKey, DefineFragments(RepeatContractions)) == {"c"};
    assert C.Elems(["c"]) == {"c"};
    assert C.Found([], FieldKey, StructureFragments(RepeatContractions)) == {};
  }

  lemma RepeatFirstSplice()
    ensures C.ExpandInOrder(["c", "c"], ["c"], NameKey, DefineFragments(RepeatContractions)) == ["a", "c"]
  {
    RepeatFragments();
    assert ["c"][..0] == [];
    assert C.FirstIndex(["c", "c"], NameKey, "c") == Some(0);
    assert ["c", "c"][1..] == ["c"];
  }

  lemma RepeatSecondSplice()
    ensures C.ExpandInOrder(["a", "c"], ["c"], NameKey, DefineFragments(RepeatContractions)) == ["a", "a"]
  {
    RepeatFragments();
    assert ["c"][..0] == [];
    assert C.FirstIndex(["a", "c"], NameKey, "c") == Some(1) by {
      assert ["a", "c"][1..] == ["c"];
    }
  }

  lemma RepeatFullExpansion()
    ensures C.ExpandAll(["c", "c"], NameKey, DefineFragments(RepeatContractions)) == ["a", "a"]
  {
    RepeatFragments();
    var frags := DefineFragments(RepeatContractions);
    assert frags.Keys == {"c"};
    assert C.Piece("c", frags.Keys, NameKey, frags) == ["a"];
    assert C.ExpandSome(["c"], frags.Keys, NameKey, frags) == ["a"] by {
      assert ["c"][..0] == [];
    }
    assert ["c", "c"][..1] == ["c"];
  }

  /** `list.index` finds only the first entry naming a contraction, so a
      contraction named twice is spliced once: the define list `[c, c]`
      becomes `[a, c]`, not the full expansion `[a, a]`, and a second pass
      changes it again, to `[a, a]`. */
  lemma RepeatedContractionLeftBehind()
    ensures Visits(RepeatPackage, RepeatContractions, ["c"], [])
    ensures Recover(RepeatPackage, RepeatContractions, ["c"], []) == (RepeatPackage.(define := Names(["a", "c"])), None)
    ensures C.ExpandAll(["c", "c"], NameKey, DefineFragments(RepeatContractions)) == ["a", "a"]
    ensures Visits(RepeatPackage.(define := Names(["a", "c"])), RepeatContractions, ["c"], [])
    ensures Recover(RepeatPackage.(define := Names(["a", "c"])), RepeatContractions, ["c"], []).0.define == Names(["a", "a"])
  {
    RepeatVisits(["c", "c"]);
    RepeatVisits(["a", "c"]);
    assert RepeatPackage.(define := Names(["c", "c"])) == RepeatPackage;
    RepeatFirstSplice();
    RepeatSecondSplice();
    RepeatFullExpansion();
  }

  function Field(n: string): FieldSpec { FieldSpec(Single(n), 1, None) }

  const StaleItems := [Field("c1"), Field("x"), Field("c2")]
  const StaleFragments := map["c1" := [Field("a"), Field("b")], "c2" := [Field("y")]]

  lemma AfterFirstSplice()
    ensures C.FirstIndex(StaleItems, FieldKey, "c1") == Some(0)
    ensures C.FirstIndex(StaleItems, FieldKey, "c2") == Some(2)
    ensures C.ExpandInOrderAsWritten(StaleItems, ["c1"], FieldKey, StaleFragments) == [Field("a"), Field("b"), Field("x"), Field("c2")]
    ensures C.ExpandInOrder(StaleItems, ["c1"], FieldKey, StaleFragments) == [Field("a"), Field("b"), Field("x"), Field("c2")]
  {
    var items := StaleItems;
    assert ["c1"][..0] == [];
    assert items[1..] == [Field("x"), Field("c2")];
    assert items[1..][1..] == [Field("c2")];
    assert C.Splice(items, 0, [Field("a"), Field("b")]) == [Field("a"), Field("b"), Field("x"), Field("c2")];
  }

  /** `recovery_structure` as written splices the second contraction at its
      place in the name list taken before the first splice: with `c1`
      spliced to two entries, `c2` (at index 2 originally, index 3 by then)
      replaces the `x` field and the `c2` entry survives. */
  lemma StaleStructureIndex()
    ensures C.ExpandInOrderAsWritten(StaleItems, ["c1", "c2"], FieldKey, StaleFragments) ==
            [Field("a"), Field("b"), Field("y"), Field("c2")]
  {
    AfterFirstSplice();
    assert ["c1", "c2"][..1] == ["c1"];
    var first := [Field("a"), Field("b"), Field("x"), Field("c2")];
    assert C.Splice(first, 2, [Field("y")]) == [Field("a"), Field("b"), Field("y"), Field("c2")];
  }

  /** Looking the place up afresh, as the corrected expansion does, gives
      every contraction replaced in place. */
  lemma FreshStructureIndex()
    ensures C.ExpandInOrder(StaleItems, ["c1", "c2"], FieldKey, StaleFragments) ==
            [Field("a"), Field("b"), Field("x"), Field("y")]
  {
    AfterFirstSplice();
    assert ["c1", "c2"][..1] == ["c1"];
    var first := [Field("a"), Field("b"), Field("x"), Field("c2")];
    assert C.FirstIndex(first, FieldKey, "c2") == Some(3) by {
      assert first[1..] == [Field("b"), Field("x"), Field("c2")];
      assert first[1..][1..] == [Field("x"), Field("c2")];
      assert first[1..][1..][1..] == [Field("c2")];
    }
    assert C.Splice(first, 3, [Field("y")]) == [Field("a"), Field("b"), Field("x"), Field("y")];
  }
}
