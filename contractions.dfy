/** Contraction splicing (`recovery_contraction_name`, `recovery_define`,
    `recovery_structure`): a list entry that names a contraction is replaced
    by the contraction's list, `items[:place] + fragment + items[place+1:]`.
    The lists are `define` lists (names) and `structure` lists (field
    entries), so everything here is generic over the entry type, with `key`
    giving the name an entry stands for, if any. */
module Contractions {
  import opened Wrappers
  import Codec

  /** `recovery_contraction_name`, with Python's clamping slices. */
  function Splice<T>(items: seq<T>, place: nat, frag: seq<T>): (r: seq<T>)
    ensures place < |items| ==> |r| == |items| - 1 + |frag|
    ensures place < |items| ==> forall i :: 0 <= i < place ==> r[i] == items[i]
    ensures place < |items| ==> forall i :: 0 <= i < |frag| ==> r[place + i] == frag[i]
    ensures place < |items| ==> forall i :: place < i < |items| ==> r[i - 1 + |frag|] == items[i]
  {
    items[..Codec.Min(place, |items|)] + frag + items[Codec.Min(place + 1, |items|)..]
  }

  /** The entry stands for a contraction. */
  predicate IsContractionName<T>(k: Option<string>, frags: map<string, seq<T>>)
  {
    k.Some? && k.value in frags
  }

  predicate Mentions<T>(items: seq<T>, key: T -> Option<string>, c: string)
  {
    exists i :: 0 <= i < |items| && key(items[i]) == Some(c)
  }

  predicate NoContraction<T>(items: seq<T>, key: T -> Option<string>, frags: map<string, seq<T>>)
  {
    forall i :: 0 <= i < |items| ==> !IsContractionName(key(items[i]), frags)
  }

  /** No contraction's own list names a contraction. */
  predicate Clean<T>(key: T -> Option<string>, frags: map<string, seq<T>>)
  {
    forall c :: c in frags ==> NoContraction(frags[c], key, frags)
  }

  /** Every contraction is named at most once in the list. */
  predicate AtMostOnce<T>(items: seq<T>, key: T -> Option<string>, frags: map<string, seq<T>>)
  {
    forall i, j :: 0 <= i < j < |items| && IsContractionName(key(items[i]), frags) ==> key(items[j]) != key(items[i])
  }

  /** The names of a sequence, as a set. */
  function Elems(order: seq<string>): (r: set<string>)
    ensures forall c :: c in r <==> c in order
  {
    if order == [] then {} else Elems(order[..|order| - 1]) + {order[|order| - 1]}
  }

  predicate Distinct(order: seq<string>)
  {
    forall i, j :: 0 <= i < j < |order| ==> order[i] != order[j]
  }

  /** `list.index`: the first entry standing for `c`; none is a ValueError. */
  function FirstIndex<T>(items: seq<T>, key: T -> Option<string>, c: string): (r: Option<nat>)
    ensures r.Some? ==> r.value < |items| && key(items[r.value]) == Some(c) &&
                        forall j :: 0 <= j < r.value ==> key(items[j]) != Some(c)
    ensures r.None? <==> !Mentions(items, key, c)
  {
    if items == [] then None
    else if key(items[0]) == Some(c) then Some(0)
    else
      match FirstIndex(items[1..], key, c)
      case None =>
        assert forall i :: 0 < i < |items| ==> items[i] == items[1..][i - 1];
        None
      case Some(i) => Some(i + 1)
  }

  /** `set(contractions_name) & set(name_list)`. */
  function Found<T>(items: seq<T>, key: T -> Option<string>, frags: map<string, seq<T>>): set<string>
  {
    set c | c in frags.Keys && Mentions(items, key, c)
  }

  /** The list after splicing the contractions of `order` one after the
      other, each at its first place in the list as it is by then (the
      index is looked up afresh each time, as `recovery_define` does). */
  function ExpandInOrder<T>(items: seq<T>, order: seq<string>, key: T -> Option<string>, frags: map<string, seq<T>>): seq<T>
  {
    if order == [] then items
    else
      var cur := ExpandInOrder(items, order[..|order| - 1], key, frags);
      var c := order[|order| - 1];
      match FirstIndex(cur, key, c)
      case None => cur
      case Some(place) => if c in frags then Splice(cur, place, frags[c]) else cur
  }

  /** One entry after expansion: its contraction's list when it names one
      in `names`, else the entry itself. */
  function Piece<T>(x: T, names: set<string>, key: T -> Option<string>, frags: map<string, seq<T>>): seq<T>
  {
    if IsContractionName(key(x), frags) && key(x).value in names then frags[key(x).value] else [x]
  }

  /** Every entry naming a contraction of `names` replaced by that contraction's list. */
  function ExpandSome<T>(items: seq<T>, names: set<string>, key: T -> Option<string>, frags: map<string, seq<T>>): seq<T>
  {
    if items == [] then []
    else ExpandSome(items[..|items| - 1], names, key, frags) + Piece(items[|items| - 1], names, key, frags)
  }

  /** The reference meaning of expansion: every contraction name replaced by
      its list, in place. */
  function ExpandAll<T>(items: seq<T>, key: T -> Option<string>, frags: map<string, seq<T>>): seq<T>
  {
    ExpandSome(items, frags.Keys, key, frags)
  }

  /** `recovery_define` over one list: the found contractions in whatever order
      the set yields them (`order`), each spliced at its current first place. */
  method ExpandList<T>(items: seq<T>, key: T -> Option<string>, frags: map<string, seq<T>>) returns (r: seq<T>, ghost order: seq<string>)
    ensures Distinct(order) && Elems(order) == Found(items, key, frags)
    ensures r == ExpandInOrder(items, order, key, frags)
    ensures Found(items, key, frags) == {} ==> r == items
    ensures Clean(key, frags) && AtMostOnce(items, key, frags) ==> r == ExpandAll(items, key, frags)
  {
    var found := Found(items, key, frags);
    var remaining := found;
    r := items;
    order := [];
    while remaining != {}
      invariant forall c :: c in found <==> c in order || c in remaining
      invariant forall c :: c in order ==> c !in remaining
      invariant Distinct(order)
      invariant forall c :: c in remaining ==> Mentions(r, key, c)
      invariant r == ExpandInOrder(items, order, key, frags)
      decreases |remaining|
    {
      var c :| c in remaining;
      var place := FirstIndex(r, key, c);
      var next := Splice(r, place.value, frags[c]);
      SpliceKeepsMentions(r, place.value, frags[c], key, remaining, c);
      assert Distinct(order + [c]);
      ExpandInOrderSnoc(items, order, c, key, frags);
      r := next;
      order := order + [c];
      remaining := remaining - {c};
    }
    assert Elems(order) == found;
    if Clean(key, frags) && AtMostOnce(items, key, frags) {
      ExpandListMeaning(items, order, key, frags);
    }
  }

  lemma ExpandInOrderSnoc<T>(items: seq<T>, order: seq<string>, c: string, key: T -> Option<string>, frags: map<string, seq<T>>)
    requires c in frags
    requires FirstIndex(ExpandInOrder(items, order, key, frags), key, c).Some?
    ensures var cur := ExpandInOrder(items, order, key, frags);
            ExpandInOrder(items, order + [c], key, frags) == Splice(cur, FirstIndex(cur, key, c).value, frags[c])
  {
    assert (order + [c])[..|order|] == order;
  }

  lemma ExpandListMeaning<T>(items: seq<T>, order: seq<string>, key: T -> Option<string>, frags: map<string, seq<T>>)
    requires Clean(key, frags) && AtMostOnce(items, key, frags)
    requires Distinct(order) && Elems(order) == Found(items, key, frags)
    ensures ExpandInOrder(items, order, key, frags) == ExpandAll(items, key, frags)
  {
    ExpandInOrderIsExpandSome(items, order, key, frags);
    ExpandSomeAgree(items, Elems(order), frags.Keys, key, frags);
  }

  /** `recovery_structure` as written: the places come from the name list
      taken before any splice, so once a contraction of another length than
      one has been spliced, later places point at the wrong entries. */
  function ExpandInOrderAsWritten<T>(items: seq<T>, order: seq<string>, key: T -> Option<string>, frags: map<string, seq<T>>): (r: seq<T>)
    ensures (forall i :: 0 <= i < |order| ==> order[i] !in Found(items, key, frags)) ==> r == items
    ensures |order| <= 1 ==> r == ExpandInOrder(items, order, key, frags)
  {
    if order == [] then items
    else
      var init := order[..|order| - 1];
      assert forall i :: 0 <= i < |init| ==> init[i] == order[i];
      var cur := ExpandInOrderAsWritten(items, init, key, frags);
      var c := order[|order| - 1];
      match FirstIndex(items, key, c)
      case None => cur
      case Some(place) => if c in frags then Splice(cur, place, frags[c]) else cur
  }

  // ---------------------------------------------------------------------
  // Properties

  lemma SpliceKeepsMention<T>(items: seq<T>, place: nat, frag: seq<T>, key: T -> Option<string>, c: string)
    requires place < |items| && key(items[place]) != Some(c) && Mentions(items, key, c)
    ensures Mentions(Splice(items, place, frag), key, c)
  {
    var r := Splice(items, place, frag);
    var i :| 0 <= i < |items| && key(items[i]) == Some(c);
    if i < place {
      assert r[i] == items[i];
    } else {
      assert r[i - 1 + |frag|] == items[i];
    }
  }

  lemma SpliceKeepsMentions<T>(items: seq<T>, place: nat, frag: seq<T>, key: T -> Option<string>, names: set<string>, c: string)
    requires place < |items| && key(items[place]) == Some(c)
    requires forall d :: d in names ==> Mentions(items, key, d)
    ensures forall d :: d in names - {c} ==> Mentions(Splice(items, place, frag), key, d)
  {
    forall d | d in names - {c}
      ensures Mentions(Splice(items, place, frag), key, d)
    {
      SpliceKeepsMention(items, place, frag, key, d);
    }
  }

  lemma {:induction false} ExpandSomeAppend<T>(a: seq<T>, b: seq<T>, names: set<string>, key: T -> Option<string>, frags: map<string, seq<T>>)
    ensures ExpandSome(a + b, names, key, frags) == ExpandSome(a, names, key, frags) + ExpandSome(b, names, key, frags)
  {
    if b == [] {
      assert a + b == a;
    } else {
      var init, last := b[..|b| - 1], b[|b| - 1];
      assert (a + b)[..|a + b| - 1] == a + init && (a + b)[|a + b| - 1] == last;
      ExpandSomeAppend(a, init, names, key, frags);
      var ea, ei, p := ExpandSome(a, names, key, frags), ExpandSome(init, names, key, frags), Piece(last, names, key, frags);
      assert ExpandSome(a + b, names, key, frags) == (ea + ei) + p;
      assert ExpandSome(b, names, key, frags) == ei + p;
      assert (ea + ei) + p == ea + (ei + p);
    }
  }

  /** Names that agree on every entry of the list expand it alike. */
  lemma {:induction false} ExpandSomeAgree<T>(items: seq<T>, n1: set<string>, n2: set<string>, key: T -> Option<string>, frags: map<string, seq<T>>)
    requires forall i :: 0 <= i < |items| && IsContractionName(key(items[i]), frags) ==>
                           (key(items[i]).value in n1 <==> key(items[i]).value in n2)
    ensures ExpandSome(items, n1, key, frags) == ExpandSome(items, n2, key, frags)
  {
    if items != [] {
      ExpandSomeAgree(items[..|items| - 1], n1, n2, key, frags);
    }
  }

  /** Expanding with clean contractions leaves no name of `c` behind when the
      list did not name `c`. */
  lemma {:induction false} ExpandSomeNoMention<T>(items: seq<T>, names: set<string>, key: T -> Option<string>, frags: map<string, seq<T>>, c: string)
    requires Clean(key, frags) && c in frags && !Mentions(items, key, c)
    ensures !Mentions(ExpandSome(items, names, key, frags), key, c)
  {
    if items != [] {
      var init := items[..|items| - 1];
      var x := items[|items| - 1];
      assert forall i :: 0 <= i < |init| ==> init[i] == items[i];
      ExpandSomeNoMention(init, names, key, frags, c);
      var p := Piece(x, names, key, frags);
      var e := ExpandSome(init, names, key, frags);
      assert !Mentions(p, key, c);
      forall i | 0 <= i < |e + p| ensures key((e + p)[i]) != Some(c) {
        if i < |e| { assert (e + p)[i] == e[i]; } else { assert (e + p)[i] == p[i - |e|]; }
      }
    }
  }

  lemma {:induction false} ExpandSomeIgnores<T>(items: seq<T>, names: set<string>, key: T -> Option<string>, frags: map<string, seq<T>>, c: string)
    requires !Mentions(items, key, c)
    ensures ExpandSome(items, names + {c}, key, frags) == ExpandSome(items, names, key, frags)
  {
    ExpandSomeAgree(items, names + {c}, names, key, frags);
  }

  /** Expansion works entry by entry: around entry `j` it splits into the
      expansion before it, its piece and the expansion after it. */
  lemma ExpandAround<T>(items: seq<T>, j: nat, names: set<string>, key: T -> Option<string>, frags: map<string, seq<T>>)
    requires j < |items|
    ensures ExpandSome(items, names, key, frags) ==
            ExpandSome(items[..j], names, key, frags) + Piece(items[j], names, key, frags) + ExpandSome(items[j + 1..], names, key, frags)
  {
    assert items == items[..j] + [items[j]] + items[j + 1..];
    var single: seq<T> := [items[j]];
    assert single[..0] == [];
    ExpandSomeAppend(items[..j] + [items[j]], items[j + 1..], names, key, frags);
    ExpandSomeAppend(items[..j], [items[j]], names, key, frags);
  }

  lemma FirstIndexAfter<T>(a: seq<T>, x: T, b: seq<T>, key: T -> Option<string>, c: string)
    requires !Mentions(a, key, c) && key(x) == Some(c)
    ensures FirstIndex(a + [x] + b, key, c) == Some(|a|)
  {
    var s := a + [x] + b;
    assert s[|a|] == x;
    assert forall i :: 0 <= i < |a| ==> s[i] == a[i];
  }

  lemma SpliceAt<T>(a: seq<T>, x: T, b: seq<T>, frag: seq<T>)
    ensures Splice(a + [x] + b, |a|, frag) == a + frag + b
  {
    var s := a + [x] + b;
    assert s[..|a|] == a && s[|a| + 1..] == b;
  }

  lemma SliceHasNoMention<T>(items: seq<T>, j: nat, key: T -> Option<string>, frags: map<string, seq<T>>)
    requires AtMostOnce(items, key, frags) && j < |items| && IsContractionName(key(items[j]), frags)
    ensures !Mentions(items[..j], key, key(items[j]).value)
    ensures !Mentions(items[j + 1..], key, key(items[j]).value)
  {
    var before, after := items[..j], items[j + 1..];
    forall i | 0 <= i < |before| ensures key(before[i]) != key(items[j]) {
      assert before[i] == items[i];
    }
    forall i | 0 <= i < |after| ensures key(after[i]) != key(items[j]) {
      assert after[i] == items[j + 1 + i];
    }
  }

  /** One splice step: splicing the single entry naming `c` into the
      expansion of the other names is the expansion with `c` added. */
  lemma SpliceStep<T>(items: seq<T>, names: set<string>, key: T -> Option<string>, frags: map<string, seq<T>>, c: string)
    requires Clean(key, frags) && AtMostOnce(items, key, frags)
    requires c in frags && c !in names && Mentions(items, key, c)
    ensures var cur := ExpandSome(items, names, key, frags);
            FirstIndex(cur, key, c).Some? &&
            Splice(cur, FirstIndex(cur, key, c).value, frags[c]) == ExpandSome(items, names + {c}, key, frags)
  {
    var j :| 0 <= j < |items| && key(items[j]) == Some(c);
    var before, x, after := items[..j], items[j], items[j + 1..];
    SliceHasNoMention(items, j, key, frags);
    ExpandAround(items, j, names, key, frags);
    ExpandAround(items, j, names + {c}, key, frags);
    ExpandSomeIgnores(before, names, key, frags, c);
    ExpandSomeIgnores(after, names, key, frags, c);
    ExpandSomeNoMention(before, names, key, frags, c);
    var a := ExpandSome(before, names, key, frags);
    var b := ExpandSome(after, names, key, frags);
    assert Piece(x, names, key, frags) == [x];
    assert Piece(x, names + {c}, key, frags) == frags[c];
    FirstIndexAfter(a, x, b, key, c);
    SpliceAt(a, x, b, frags[c]);
  }

  /** Splicing the found names in any order, each once, gives the expansion
      of exactly those names. */
  lemma {:induction false} ExpandInOrderIsExpandSome<T>(items: seq<T>, order: seq<string>, key: T -> Option<string>, frags: map<string, seq<T>>)
    requires Clean(key, frags) && AtMostOnce(items, key, frags) && Distinct(order)
    requires forall c :: c in order ==> c in Found(items, key, frags)
    ensures ExpandInOrder(items, order, key, frags) == ExpandSome(items, Elems(order), key, frags)
  {
    if order == [] {
      ExpandSomeNone(items, key, frags);
    } else {
      var init := order[..|order| - 1];
      var c := order[|order| - 1];
      assert c in order;
      assert c in frags && Mentions(items, key, c);
      assert forall d :: d in init ==> d in order;
      assert Distinct(init);
      ExpandInOrderIsExpandSome(items, init, key, frags);
      assert c !in init;
      SpliceStep(items, Elems(init), key, frags, c);
    }
  }

  lemma {:induction false} ExpandSomeNone<T>(items: seq<T>, key: T -> Option<string>, frags: map<string, seq<T>>)
    ensures ExpandSome(items, {}, key, frags) == items
  {
    if items != [] {
      ExpandSomeNone(items[..|items| - 1], key, frags);
    }
  }

  /** A list that names no contraction is left as it is. */
  lemma {:induction false} ExpandAllUnchanged<T>(items: seq<T>, key: T -> Option<string>, frags: map<string, seq<T>>)
    requires NoContraction(items, key, frags)
    ensures ExpandAll(items, key, frags) == items
  {
    if items != [] {
      ExpandAllUnchanged(items[..|items| - 1], key, frags);
    }
  }

  /** With clean contractions, expansion leaves no contraction name. */
  lemma {:induction false} ExpandAllComplete<T>(items: seq<T>, key: T -> Option<string>, frags: map<string, seq<T>>)
    requires Clean(key, frags)
    ensures NoContraction(ExpandAll(items, key, frags), key, frags)
  {
    if items != [] {
      var init := items[..|items| - 1];
      ExpandAllComplete(init, key, frags);
      var e := ExpandAll(init, key, frags);
      var p := Piece(items[|items| - 1], frags.Keys, key, frags);
      assert NoContraction(p, key, frags);
      forall i | 0 <= i < |e + p| ensures !IsContractionName(key((e + p)[i]), frags) {
        if i < |e| { assert (e + p)[i] == e[i]; } else { assert (e + p)[i] == p[i - |e|]; }
      }
    }
  }

  /** Expansion is idempotent. */
  lemma ExpandAllIdempotent<T>(items: seq<T>, key: T -> Option<string>, frags: map<string, seq<T>>)
    requires Clean(key, frags)
    ensures ExpandAll(ExpandAll(items, key, frags), key, frags) == ExpandAll(items, key, frags)
  {
    ExpandAllComplete(items, key, frags);
    ExpandAllUnchanged(ExpandAll(items, key, frags), key, frags);
  }
}
