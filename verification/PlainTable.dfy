/** A table of strings under plain edits: what the editable view has to look like from outside. An edit that
    the view refuses gives no table. */
module PlainTable {
  import opened CsvWriter
  import opened Outcomes
  import opened SyntheticLabels

  datatype Table = Table(hasHeaders: bool, names: seq<string>, rows: seq<seq<string>>) {
    ghost predicate Rectangular() {
      forall i :: 0 <= i < |rows| ==> |rows[i]| == |names|
    }
  }

  function InsertAt<T>(s: seq<T>, at: nat, x: T): seq<T>
    requires at <= |s|
  {
    s[..at] + [x] + s[at..]
  }

  function RemoveAt<T>(s: seq<T>, at: nat): seq<T>
    requires at < |s|
  {
    s[..at] + s[at + 1..]
  }

  /** The first position of `name`. */
  function IndexOf(names: seq<string>, name: string): (k: nat)
    requires name in names
    ensures k < |names| && names[k] == name && name !in names[..k]
  {
    if names[0] == name then 0 else 1 + IndexOf(names[1..], name)
  }

  datatype Edit =
    | EditCell(row: nat, column: string, value: string)
    | DeleteRow(row: nat)
    | InsertRow(row: nat, values: seq<string>)
    | SwapRows(first: nat, second: nat)
    | InsertColumn(at: nat, name: string, value: string)
    | RenameColumn(column: string, name: string)
    | DeleteColumn(column: string)
    | SetOptions(delimiter: string, quote: string, hasHeaders: bool)

  function InsertInRows(rows: seq<seq<string>>, at: nat, value: string): (r: seq<seq<string>>)
    requires forall i :: 0 <= i < |rows| ==> at <= |rows[i]|
  {
    seq(|rows|, i requires 0 <= i < |rows| => InsertAt(rows[i], at, value))
  }

  function RemoveFromRows(rows: seq<seq<string>>, at: nat): (r: seq<seq<string>>)
    requires forall i :: 0 <= i < |rows| ==> at < |rows[i]|
  {
    seq(|rows|, i requires 0 <= i < |rows| => RemoveAt(rows[i], at))
  }

  /** The values of a row, in the order of the columns named by `order`. */
  function Permuted(row: seq<string>, names: seq<string>, order: seq<string>): (r: seq<string>)
    requires |row| == |names| && forall k :: 0 <= k < |order| ==> order[k] in names
    ensures |r| == |order|
  {
    seq(|order|, k requires 0 <= k < |order| => row[IndexOf(names, order[k])])
  }

  /** Names of `t` after a change of its columns to `names`: a headerless table is labelled afresh. */
  function Renamed(t: Table, names: seq<string>): seq<string> {
    if t.hasHeaders then names else Labels(|names|)
  }

  /** Turning headers off makes the names a row; turning them on makes the first row names. */
  ghost function SwitchHeaders(t: Table, on: bool): Option<Table> {
    if on == t.hasHeaders then Some(t)
    else if !on then Some(Table(false, Labels(|t.names|), [t.names] + t.rows))
    else if t.rows == [] || !Unique(t.rows[0]) || "" in t.rows[0] then None
    else Some(Table(true, t.rows[0], t.rows[1..]))
  }

  /** One edit; `locked` says that headers may not be turned on because some record is too wide. */
  ghost function Apply(t: Table, locked: bool, e: Edit): Option<Table>
    requires t.Rectangular()
  {
    match e
    case EditCell(row, column, value) =>
      if row >= |t.rows| || column !in t.names then None
      else Some(t.(rows := t.rows[row := t.rows[row][IndexOf(t.names, column) := value]]))
    case DeleteRow(row) =>
      if row >= |t.rows| then None else Some(t.(rows := RemoveAt(t.rows, row)))
    case InsertRow(row, values) =>
      if |values| != |t.names| || row > |t.rows| then None else Some(t.(rows := InsertAt(t.rows, row, values)))
    case SwapRows(first, second) =>
      if first >= |t.rows| || second >= |t.rows| then None
      else Some(t.(rows := t.rows[first := t.rows[second]][second := t.rows[first]]))
    case InsertColumn(at, name, value) =>
      if (t.hasHeaders && (name == "" || name in t.names)) || at > |t.names| then None
      else Some(Table(t.hasHeaders, Renamed(t, InsertAt(t.names, at, name)), InsertInRows(t.rows, at, value)))
    case RenameColumn(column, name) =>
      if !t.hasHeaders || name == "" || column !in t.names || (column != name && name in t.names) then None
      else Some(t.(names := t.names[IndexOf(t.names, column) := name]))
    case DeleteColumn(column) =>
      if |t.names| <= 1 || column !in t.names then None
      else
        var k := IndexOf(t.names, column);
        Some(Table(t.hasHeaders, Renamed(t, RemoveAt(t.names, k)), RemoveFromRows(t.rows, k)))
    case SetOptions(delimiter, quote, hasHeaders) =>
      if (hasHeaders && locked) || WithDialect(delimiter, quote).Err? then None
      else SwitchHeaders(t, hasHeaders)
  }

  lemma {:induction false} InsertAtUnique(names: seq<string>, at: nat, name: string)
    requires at <= |names| && Unique(names) && name !in names
    ensures Unique(InsertAt(names, at, name))
  {
    var after := InsertAt(names, at, name);
    forall i, j | 0 <= i < j < |after| ensures after[i] != after[j] {
      if i != at { assert after[i] == names[if i < at then i else i - 1]; }
      if j != at { assert after[j] == names[if j < at then j else j - 1]; }
    }
  }

  lemma {:induction false} RemoveAtUnique(names: seq<string>, at: nat)
    requires at < |names| && Unique(names)
    ensures Unique(RemoveAt(names, at))
    ensures names[at] !in RemoveAt(names, at)
  {
    var after := RemoveAt(names, at);
    assert forall i :: 0 <= i < |after| ==> after[i] == names[if i < at then i else i + 1];
  }

  /** Edits keep a table rectangular. */
  lemma {:induction false} ApplyRectangular(t: Table, locked: bool, e: Edit)
    requires t.Rectangular() && Apply(t, locked, e).Some?
    ensures Apply(t, locked, e).value.Rectangular()
  {
    match e
    case InsertRow(row, values) =>
      assert forall i :: 0 <= i <= |t.rows| ==>
        |InsertAt(t.rows, row, values)[i]| == |t.names|;
    case DeleteRow(row) =>
      assert forall i :: 0 <= i < |t.rows| - 1 ==> |RemoveAt(t.rows, row)[i]| == |t.names|;
    case InsertColumn(at, name, value) =>
      InsertRectangular(t, at, name, value);
    case DeleteColumn(column) =>
      RemoveRectangular(t, IndexOf(t.names, column));
    case SetOptions(delimiter, quote, hasHeaders) =>
      SwitchRectangular(t, hasHeaders);
    case _ =>
  }

  lemma {:induction false} InsertRectangular(t: Table, at: nat, name: string, value: string)
    requires t.Rectangular() && at <= |t.names|
    ensures Table(t.hasHeaders, Renamed(t, InsertAt(t.names, at, name)), InsertInRows(t.rows, at, value)).Rectangular()
  {
  }

  lemma {:induction false} RemoveRectangular(t: Table, k: nat)
    requires t.Rectangular() && k < |t.names|
    ensures Table(t.hasHeaders, Renamed(t, RemoveAt(t.names, k)), RemoveFromRows(t.rows, k)).Rectangular()
  {
  }

  lemma {:induction false} SwitchRectangular(t: Table, on: bool)
    requires t.Rectangular() && SwitchHeaders(t, on).Some?
    ensures SwitchHeaders(t, on).value.Rectangular()
  {
    assert forall i :: 0 <= i < |t.rows| + 1 ==> |([t.names] + t.rows)[i]| == |t.names|;
  }

  lemma {:induction false} OptionsApply(t: Table, locked: bool, delimiter: string, quote: string, on: bool)
    requires t.Rectangular()
    ensures Apply(t, locked, SetOptions(delimiter, quote, on))
         == if (on && locked) || WithDialect(delimiter, quote).Err? then None else SwitchHeaders(t, on)
  {
  }

  /** Swapping a row with itself leaves the table as it is. */
  lemma {:induction false} SwapSame(t: Table, locked: bool, row: nat)
    requires t.Rectangular() && row < |t.rows|
    ensures Apply(t, locked, SwapRows(row, row)) == Some(t)
  {
    assert t.rows[row := t.rows[row]][row := t.rows[row]] == t.rows;
  }

  /** Edits keep names unique. */
  lemma {:induction false} ApplyUnique(t: Table, locked: bool, e: Edit)
    requires t.Rectangular() && Apply(t, locked, e).Some? && Unique(t.names)
    ensures Unique(Apply(t, locked, e).value.names)
  {
    LabelsUnique(|Apply(t, locked, e).value.names|);
    match e
    case InsertColumn(at, name, value) =>
      if t.hasHeaders { InsertAtUnique(t.names, at, name); }
    case DeleteColumn(column) =>
      RemoveAtUnique(t.names, IndexOf(t.names, column));
    case _ =>
  }

  /** An edit carried out; a refused one leaves the table as it was. */
  ghost function Carried(t: Table, locked: bool, e: Edit): (after: Table)
    requires t.Rectangular()
    ensures after.Rectangular()
  {
    if Apply(t, locked, e).None? then t else (ApplyRectangular(t, locked, e); Apply(t, locked, e).value)
  }

  /** A run of edits. */
  ghost function ApplyAll(t: Table, locked: bool, edits: seq<Edit>): (after: Table)
    requires t.Rectangular()
    ensures after.Rectangular()
    decreases |edits|
  {
    if edits == [] then t
    else Carried(ApplyAll(t, locked, edits[..|edits| - 1]), locked, edits[|edits| - 1])
  }

  lemma {:induction false} RunKeepsNamesUnique(t: Table, locked: bool, edits: seq<Edit>)
    requires t.Rectangular() && Unique(t.names)
    ensures Unique(ApplyAll(t, locked, edits).names)
    decreases |edits|
  {
    if edits != [] {
      RunKeepsNamesUnique(t, locked, edits[..|edits| - 1]);
      var before, e := ApplyAll(t, locked, edits[..|edits| - 1]), edits[|edits| - 1];
      if Apply(before, locked, e).Some? {
        ApplyUnique(before, locked, e);
      }
    }
  }

  /** An order for the columns: none given, or every name exactly as often as there is. */
  ghost predicate OrderFits(names: seq<string>, order: seq<string>) {
    order == [] || multiset(order) == multiset(names)
  }

  lemma {:induction false} OrderNames(names: seq<string>, order: seq<string>)
    requires OrderFits(names, order)
    ensures forall k :: 0 <= k < |order| ==> order[k] in names
    ensures order != [] ==> |order| == |names|
  {
    forall k | 0 <= k < |order| ensures order[k] in names {
      assert order[k] in multiset(order);
    }
    assert |multiset(order)| == |order| && |multiset(names)| == |names|;
  }

  /** The table with its columns in the requested order; a headerless table keeps its labels. */
  ghost function Reordered(t: Table, order: seq<string>): (r: Table)
    requires t.Rectangular() && OrderFits(t.names, order)
    ensures r.Rectangular() && |r.names| == |t.names| && |r.rows| == |t.rows|
  {
    OrderNames(t.names, order);
    if order == [] then t
    else Table(t.hasHeaders, Renamed(t, order),
               seq(|t.rows|, i requires 0 <= i < |t.rows| => Permuted(t.rows[i], t.names, order)))
  }

  /** Turning headers off and on again gives back a table whose names are unique and not empty. */
  lemma {:induction false} SwitchBack(t: Table)
    requires t.hasHeaders && Unique(t.names) && "" !in t.names
    ensures SwitchHeaders(t, false).Some?
    ensures SwitchHeaders(SwitchHeaders(t, false).value, true) == Some(t)
  {
    assert ([t.names] + t.rows)[1..] == t.rows;
  }
}
