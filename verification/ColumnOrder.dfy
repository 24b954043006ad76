/** What a requested order of columns keeps. Columns are looked up by name, so that one name stands for one column. */
module ColumnOrder {
  import opened PlainTable
  import opened SyntheticLabels

  /** A column: its name and its cells. */
  datatype NamedColumn = NamedColumn(name: string, cells: seq<string>)

  ghost function CellsOf(t: Table, k: nat): seq<string>
    requires t.Rectangular() && k < |t.names|
  {
    seq(|t.rows|, i requires 0 <= i < |t.rows| => t.rows[i][k])
  }

  /** The columns of a table under the given names. */
  ghost function NamedColumns(names: seq<string>, t: Table): seq<NamedColumn>
    requires t.Rectangular() && |names| == |t.names|
  {
    seq(|names|, k requires 0 <= k < |names| => NamedColumn(names[k], CellsOf(t, k)))
  }

  /** The column holds what the first column of its name holds. */
  ghost predicate LikeFirst(t: Table, k: nat)
    requires t.Rectangular() && k < |t.names|
  {
    forall i :: 0 <= i < |t.rows| ==> t.rows[i][k] == t.rows[i][IndexOf(t.names, t.names[k])]
  }

  ghost predicate AllLikeFirst(t: Table)
    requires t.Rectangular()
  {
    forall k :: 0 <= k < |t.names| ==> LikeFirst(t, k)
  }

  lemma {:induction false} UniqueLikeFirst(t: Table)
    requires t.Rectangular() && Unique(t.names)
    ensures AllLikeFirst(t)
  {
    forall k | 0 <= k < |t.names| ensures LikeFirst(t, k) {
      assert IndexOf(t.names, t.names[k]) == k;
    }
  }

  /** Place `j` of the requested order shows column `k`: its name and its cells. */
  ghost predicate ShownAt(t: Table, order: seq<string>, k: nat, j: nat)
    requires t.Rectangular() && OrderFits(t.names, order) && order != [] && k < |t.names|
  {
    && j < |order| && j < |Reordered(t, order).names| && order[j] == t.names[k]
    && CellsOf(Reordered(t, order), j) == CellsOf(t, k)
  }

  /** Every place of the order shows the cells of the first column of its name. */
  lemma {:induction false} ReorderedCells(t: Table, order: seq<string>, j: nat)
    requires t.Rectangular() && OrderFits(t.names, order) && j < |order|
    ensures |order| == |t.names| && order[j] in t.names
    ensures CellsOf(Reordered(t, order), j) == CellsOf(t, IndexOf(t.names, order[j]))
  {
    OrderNames(t.names, order);
  }

  /** A requested order keeps a column precisely when it holds what the first column of its name holds: the lookup takes
      that first column each time the name comes. */
  lemma {:induction false} ReorderedKeepsColumns(t: Table, order: seq<string>, k: nat)
    requires t.Rectangular() && OrderFits(t.names, order) && order != [] && k < |t.names|
    ensures (exists j: nat :: ShownAt(t, order, k, j)) <==> LikeFirst(t, k)
  {
    OrderNames(t.names, order);
    CellsLikeFirst(t, k);
    if LikeFirst(t, k) {
      assert t.names[k] in multiset(t.names);
      assert t.names[k] in order;
      var j: nat :| j < |order| && order[j] == t.names[k];
      ReorderedCells(t, order, j);
      assert ShownAt(t, order, k, j);
    }
    if j: nat :| ShownAt(t, order, k, j) {
      ReorderedCells(t, order, j);
    }
  }

  lemma {:induction false} CellsLikeFirst(t: Table, k: nat)
    requires t.Rectangular() && k < |t.names|
    ensures LikeFirst(t, k) <==> CellsOf(t, k) == CellsOf(t, IndexOf(t.names, t.names[k]))
  {
    var first := IndexOf(t.names, t.names[k]);
    if CellsOf(t, k) == CellsOf(t, first) {
      forall i | 0 <= i < |t.rows| ensures t.rows[i][k] == t.rows[i][first] {
        assert CellsOf(t, k)[i] == CellsOf(t, first)[i];
      }
    }
  }

  /** The columns an order shows, under the names it gives. */
  ghost function ShownColumns(t: Table, order: seq<string>): seq<NamedColumn>
    requires t.Rectangular() && OrderFits(t.names, order) && order != []
  {
    OrderNames(t.names, order);
    NamedColumns(order, Reordered(t, order))
  }

  /** The columns are all there, as many of each. No order leaves them alone. */
  ghost predicate KeepsColumns(t: Table, order: seq<string>)
    requires t.Rectangular() && OrderFits(t.names, order)
  {
    order == [] || multiset(ShownColumns(t, order)) == multiset(NamedColumns(t.names, t))
  }

  /** A requested order keeps the columns, as many of each as there were, precisely when columns of one name hold the
      same cells; so it does when names are unique. */
  lemma {:induction false} ReorderedConserves(t: Table, order: seq<string>)
    requires t.Rectangular() && OrderFits(t.names, order)
    ensures KeepsColumns(t, order) <==> order == [] || AllLikeFirst(t)
    ensures Unique(t.names) ==> KeepsColumns(t, order)
  {
    if Unique(t.names) { UniqueLikeFirst(t); }
    if order == [] {
    } else if AllLikeFirst(t) {
      AfterIsMapped(t, order);
      BeforeIsMapped(t);
      MappedBag(t.names, order, FirstOfName(t));
    } else {
      var k: nat :| k < |t.names| && !LikeFirst(t, k);
      ColumnMissing(t, order, k);
    }
  }

  lemma {:induction false} ColumnMissing(t: Table, order: seq<string>, k: nat)
    requires t.Rectangular() && OrderFits(t.names, order) && order != [] && k < |t.names| && !LikeFirst(t, k)
    ensures multiset(ShownColumns(t, order)) != multiset(NamedColumns(t.names, t))
  {
    var before, after := NamedColumns(t.names, t), ShownColumns(t, order);
    ReorderedKeepsColumns(t, order, k);
    assert before[k] in multiset(before);
    if before[k] in after {
      var j: nat :| j < |after| && after[j] == before[k];
      assert ShownAt(t, order, k, j);
    }
  }

  /** The first column of a name. */
  ghost function FirstOfName(t: Table): string -> NamedColumn
    requires t.Rectangular()
  {
    name => if name in t.names then NamedColumn(name, CellsOf(t, IndexOf(t.names, name))) else NamedColumn(name, [])
  }

  ghost function Mapped(names: seq<string>, of: string -> NamedColumn): seq<NamedColumn> {
    seq(|names|, k requires 0 <= k < |names| => of(names[k]))
  }

  lemma {:induction false} AfterIsMapped(t: Table, order: seq<string>)
    requires t.Rectangular() && OrderFits(t.names, order) && order != []
    ensures ShownColumns(t, order) == Mapped(order, FirstOfName(t))
  {
    OrderNames(t.names, order);
    forall j | 0 <= j < |order| ensures ShownColumns(t, order)[j] == Mapped(order, FirstOfName(t))[j] {
      ReorderedCells(t, order, j);
    }
  }

  lemma {:induction false} BeforeIsMapped(t: Table)
    requires t.Rectangular() && AllLikeFirst(t)
    ensures NamedColumns(t.names, t) == Mapped(t.names, FirstOfName(t))
  {
    forall k | 0 <= k < |t.names| ensures NamedColumns(t.names, t)[k] == Mapped(t.names, FirstOfName(t))[k] {
      assert LikeFirst(t, k);
      CellsLikeFirst(t, k);
    }
  }

  lemma {:induction false} BagAround(a: seq<string>, name: string, b: seq<string>)
    ensures multiset(a + [name] + b) == multiset(a + b) + multiset{name}
  {
  }

  lemma {:induction false} SameRest(init: seq<string>, name: string, front: seq<string>, back: seq<string>)
    requires multiset(init + [name]) == multiset(front + [name] + back)
    ensures multiset(init) == multiset(front + back)
  {
    BagAround(front, name, back);
    assert multiset(init) == multiset(init + [name]) - multiset{name};
  }

  lemma {:induction false} MappedAround(a: seq<string>, name: string, b: seq<string>, of: string -> NamedColumn)
    ensures multiset(Mapped(a + [name] + b, of)) == multiset(Mapped(a + b, of)) + multiset{of(name)}
  {
    assert Mapped(a + [name] + b, of) == Mapped(a, of) + [of(name)] + Mapped(b, of);
    assert Mapped(a + b, of) == Mapped(a, of) + Mapped(b, of);
  }

  lemma {:induction false} MappedEnd(init: seq<string>, name: string, of: string -> NamedColumn)
    ensures multiset(Mapped(init + [name], of)) == multiset(Mapped(init, of)) + multiset{of(name)}
  {
    assert Mapped(init + [name], of) == Mapped(init, of) + [of(name)];
  }

  lemma {:induction false} TakeOut(b: seq<string>, name: string) returns (front: seq<string>, back: seq<string>)
    requires name in b
    ensures b == front + [name] + back
  {
    var j :| 0 <= j < |b| && b[j] == name;
    front, back := b[..j], b[j + 1..];
  }

  /** Mapping keeps two sequences permutations of each other. */
  lemma {:induction false} MappedBag(a: seq<string>, b: seq<string>, of: string -> NamedColumn)
    requires multiset(a) == multiset(b)
    ensures multiset(Mapped(a, of)) == multiset(Mapped(b, of))
  {
    if a == [] {
      assert |b| == |multiset(b)| == 0;
    } else {
      var init, name := a[..|a| - 1], a[|a| - 1];
      assert a == init + [name];
      assert name in multiset(b);
      var front, back := TakeOut(b, name);
      SameRest(init, name, front, back);
      MappedBag(init, front + back, of);
      MappedEnd(init, name, of);
      MappedAround(front, name, back, of);
    }
  }

  /** With two columns of one name, the order that names them as they stand loses the second. */
  lemma {:induction false} OrderLosesColumn(t: Table, order: seq<string>)
    requires t == Table(true, ["a", "a"], [["1", "2"]]) && order == ["a", "a"]
    ensures t.Rectangular() && OrderFits(t.names, order) && !KeepsColumns(t, order)
    ensures Reordered(t, order) == Table(true, ["a", "a"], [["1", "1"]])
  {
    OrderNames(t.names, order);
    assert IndexOf(t.names, "a") == 0;
    assert Permuted(t.rows[0], t.names, order) == ["1", "1"];
    assert !LikeFirst(t, 1);
    ReorderedConserves(t, order);
  }
}
