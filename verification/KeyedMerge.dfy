/** Merging the rows of one table into another by a key column. Rows have as many fields as there are headers; finding
    the key column is the parameter `find`. */
module KeyedMerge {
  import opened Outcomes

  type Row = seq<string>

  datatype CsvTable = CsvTable(headers: seq<string>, rows: seq<Row>)

  predicate Fits(t: CsvTable) {
    forall i :: 0 <= i < |t.rows| ==> |t.rows[i]| == |t.headers|
  }

  predicate RowsHave(rows: seq<Row>, k: nat) {
    forall i :: 0 <= i < |rows| ==> k < |rows[i]|
  }

  // ----- Keys -----

  function Keys(rows: seq<Row>, k: nat): (r: seq<string>)
    requires RowsHave(rows, k)
    ensures |r| == |rows| && forall i :: 0 <= i < |rows| ==> r[i] == rows[i][k]
  {
    seq(|rows|, i requires 0 <= i < |rows| => rows[i][k])
  }

  predicate Distinct(keys: seq<string>) {
    forall i, j :: 0 <= i < j < |keys| ==> keys[i] != keys[j]
  }

  function KeySet(rows: seq<Row>, k: nat): set<string>
    requires RowsHave(rows, k)
  {
    set key | key in Keys(rows, k)
  }

  lemma {:induction false} OneMoreKey(rows: seq<Row>, k: nat, i: nat)
    requires RowsHave(rows, k) && i < |rows|
    ensures KeySet(rows[..i + 1], k) == KeySet(rows[..i], k) + {rows[i][k]}
    ensures Distinct(Keys(rows[..i + 1], k)) <==> Distinct(Keys(rows[..i], k)) && rows[i][k] !in KeySet(rows[..i], k)
  {
    assert Keys(rows[..i + 1], k) == Keys(rows[..i], k) + [rows[i][k]];
  }

  lemma {:induction false} DistinctPrefix(rows: seq<Row>, k: nat, i: nat)
    requires RowsHave(rows, k) && i <= |rows| && !Distinct(Keys(rows[..i], k))
    ensures !Distinct(Keys(rows, k))
  {
    assert Keys(rows[..i], k) == Keys(rows, k)[..i];
  }

  /** The keys of the existing rows, unless one repeats. */
  method ReadExistingKeys(rows: seq<Row>, k: nat) returns (r: Option<set<string>>)
    requires RowsHave(rows, k)
    ensures r.Some? <==> Distinct(Keys(rows, k))
    ensures r.Some? ==> r.value == KeySet(rows, k)
  {
    var keys: set<string> := {};
    for i := 0 to |rows|
      invariant Distinct(Keys(rows[..i], k)) && keys == KeySet(rows[..i], k)
    {
      var key := rows[i][k];
      OneMoreKey(rows, k, i);
      if key in keys {
        DistinctPrefix(rows, k, i + 1);
        return None;
      }
      keys := keys + {key};
    }
    assert rows[..|rows|] == rows;
    r := Some(keys);
  }

  /** How many rows have a key in the set. */
  function Known(rows: seq<Row>, k: nat, keys: set<string>): nat
    requires RowsHave(rows, k)
  {
    if rows == [] then 0
    else Known(rows[..|rows| - 1], k, keys) + if rows[|rows| - 1][k] in keys then 1 else 0
  }

  /** The rows whose key is not in the set, in order. */
  function NewRows(rows: seq<Row>, k: nat, keys: set<string>): (r: seq<Row>)
    requires RowsHave(rows, k)
    ensures RowsHave(r, k) && |r| <= |rows|
  {
    if rows == [] then []
    else
      NewRows(rows[..|rows| - 1], k, keys) + if rows[|rows| - 1][k] in keys then [] else [rows[|rows| - 1]]
  }

  /** How many incoming rows will be skipped, unless an incoming key repeats. */
  method ValidateIncomingKeys(rows: seq<Row>, k: nat, existing: set<string>) returns (r: Option<nat>)
    requires RowsHave(rows, k)
    ensures r.Some? <==> Distinct(Keys(rows, k))
    ensures r.Some? ==> r.value == Known(rows, k, existing)
  {
    var seen: set<string> := {};
    var skipped := 0;
    for i := 0 to |rows|
      invariant Distinct(Keys(rows[..i], k)) && seen == KeySet(rows[..i], k)
      invariant skipped == Known(rows[..i], k, existing)
    {
      var key := rows[i][k];
      OneMoreKey(rows, k, i);
      assert rows[..i + 1][..i] == rows[..i];
      if key in seen {
        DistinctPrefix(rows, k, i + 1);
        return None;
      }
      seen := seen + {key};
      if key in existing { skipped := skipped + 1; }
    }
    assert rows[..|rows|] == rows;
    r := Some(skipped);
  }

  /** The merged rows, and how many were added. */
  method WriteMerged(existing: seq<Row>, incoming: seq<Row>, k: nat, keys: set<string>)
    returns (output: seq<Row>, added: nat)
    requires RowsHave(incoming, k)
    ensures output == existing + NewRows(incoming, k, keys)
    ensures added == |NewRows(incoming, k, keys)|
  {
    output, added := [], 0;
    for i := 0 to |existing|
      invariant output == existing[..i]
    {
      output := output + [existing[i]];
    }
    for i := 0 to |incoming|
      invariant output == existing + NewRows(incoming[..i], k, keys)
      invariant added == |NewRows(incoming[..i], k, keys)|
    {
      assert incoming[..i + 1][..i] == incoming[..i];
      if incoming[i][k] in keys { continue; }
      output, added := output + [incoming[i]], added + 1;
    }
    assert incoming[..|incoming|] == incoming;
  }

  // ----- The merge -----

  type Finder = (seq<string>, string) -> Option<nat>

  ghost predicate Finds(find: Finder, key: string) {
    forall headers: seq<string> :: find(headers, key).Some? ==> find(headers, key).value < |headers|
  }

  datatype Merged = Merged(table: CsvTable, added: nat, skipped: nat)

  const HEADERS := "existing and incoming CSV headers do not match exactly"
  const NO_KEY := "merge: key column not found"
  const EXISTING_TWICE := "merge: duplicate key already present in existing CSV"
  const INCOMING_TWICE := "merge: duplicate key within incoming CSV"

  /** The merge of two tables: an existing table that is missing counts as an empty one with the incoming headers. */
  function MergeOf(existing: Option<CsvTable>, incoming: CsvTable, key: string, find: Finder): (r: Result<Merged>)
    requires (existing.Some? ==> Fits(existing.value)) && Fits(incoming) && Finds(find, key)
  {
    var present := if existing.Some? then existing.value else CsvTable(incoming.headers, []);
    if present.headers != incoming.headers then Err(HEADERS)
    else
      match find(present.headers, key)
      case None => Err(NO_KEY)
      case Some(k) =>
        if !Distinct(Keys(present.rows, k)) then Err(EXISTING_TWICE)
        else if !Distinct(Keys(incoming.rows, k)) then Err(INCOMING_TWICE)
        else
          var unseen := NewRows(incoming.rows, k, KeySet(present.rows, k));
          var known := Known(incoming.rows, k, KeySet(present.rows, k));
          Ok(Merged(CsvTable(present.headers, present.rows + unseen), |unseen|, known))
  }

  method RunMerge(existing: Option<CsvTable>, incoming: CsvTable, key: string, find: Finder)
    returns (r: Result<Merged>)
    requires (existing.Some? ==> Fits(existing.value)) && Fits(incoming) && Finds(find, key)
    ensures r == MergeOf(existing, incoming, key, find)
  {
    var headers := if existing.Some? then existing.value.headers else incoming.headers;
    if headers != incoming.headers { return Err(HEADERS); }
    var present := if existing.Some? then existing.value.rows else [];
    var k := find(headers, key);
    if k.None? { return Err(NO_KEY); }
    var keys := Some({});
    if existing.Some? {
      keys := ReadExistingKeys(present, k.value);
    }
    if keys.None? { return Err(EXISTING_TWICE); }
    assert existing.None? ==> KeySet(present, k.value) == {};
    var skipped := ValidateIncomingKeys(incoming.rows, k.value, keys.value);
    if skipped.None? { return Err(INCOMING_TWICE); }
    var output, added := WriteMerged(present, incoming.rows, k.value, keys.value);
    r := Ok(Merged(CsvTable(headers, output), added, skipped.value));
  }

  // ----- Appending -----

  function AppendOf(existing: CsvTable, incoming: CsvTable): Result<CsvTable> {
    if existing.headers != incoming.headers then Err(HEADERS)
    else Ok(CsvTable(existing.headers, existing.rows + incoming.rows))
  }

  method RunAppend(existing: CsvTable, incoming: CsvTable) returns (r: Result<CsvTable>)
    ensures r == AppendOf(existing, incoming)
  {
    if existing.headers != incoming.headers { return Err(HEADERS); }
    var output := [];
    for i := 0 to |existing.rows|
      invariant output == existing.rows[..i]
    {
      output := output + [existing.rows[i]];
    }
    for i := 0 to |incoming.rows|
      invariant output == existing.rows + incoming.rows[..i]
    {
      output := output + [incoming.rows[i]];
    }
    assert incoming.rows[..|incoming.rows|] == incoming.rows;
    r := Ok(CsvTable(existing.headers, output));
  }

  /** When no key of either table repeats and none is shared, appending and merging give the same table. */
  lemma AppendIsMerge(existing: CsvTable, incoming: CsvTable, key: string, find: Finder)
    requires Inputs(Some(existing), incoming, key, find) && existing.headers == incoming.headers
    requires find(existing.headers, key).Some?
    requires var k := find(existing.headers, key).value;
             && Distinct(Keys(existing.rows, k)) && Distinct(Keys(incoming.rows, k))
             && KeySet(existing.rows, k) !! KeySet(incoming.rows, k)
    ensures MergeOf(Some(existing), incoming, key, find).Ok?
    ensures Ok(MergeOf(Some(existing), incoming, key, find).value.table) == AppendOf(existing, incoming)
  {
    var k := find(existing.headers, key).value;
    AllNew(incoming.rows, k, KeySet(existing.rows, k));
  }

  lemma {:induction false} AllNew(rows: seq<Row>, k: nat, keys: set<string>)
    requires RowsHave(rows, k) && KeySet(rows, k) !! keys
    ensures NewRows(rows, k, keys) == rows
  {
    if rows != [] {
      var n := |rows| - 1;
      assert rows[..n + 1] == rows;
      KeysOfPrefix(rows, k, n);
      AllNew(rows[..n], k, keys);
      assert rows[..n] + [rows[n]] == rows;
    }
  }

  // ----- What a merge is for -----

  /** The two passes agree: what one counts as added and the other as skipped is the whole incoming file. */
  lemma {:induction false} AddedAndSkipped(rows: seq<Row>, k: nat, keys: set<string>)
    requires RowsHave(rows, k)
    ensures |NewRows(rows, k, keys)| + Known(rows, k, keys) == |rows|
  {
    if rows != [] { AddedAndSkipped(rows[..|rows| - 1], k, keys); }
  }

  /** A new row is an incoming row with an unknown key, and every such row is there. */
  lemma {:induction false} NewRowsAre(rows: seq<Row>, k: nat, keys: set<string>, row: Row)
    requires RowsHave(rows, k)
    ensures row in NewRows(rows, k, keys) <==> row in rows && k < |row| && row[k] !in keys
  {
    if rows != [] {
      var some, last := rows[..|rows| - 1], rows[|rows| - 1];
      NewRowsAre(some, k, keys, row);
      assert rows == some + [last];
    }
  }

  lemma {:induction false} NewKeysDistinct(rows: seq<Row>, k: nat, keys: set<string>)
    requires RowsHave(rows, k) && Distinct(Keys(rows, k))
    ensures Distinct(Keys(NewRows(rows, k, keys), k))
    ensures KeySet(NewRows(rows, k, keys), k) == KeySet(rows, k) - keys
  {
    if rows != [] {
      var n := |rows| - 1;
      var some, key := rows[..n], rows[n][k];
      assert rows[..n + 1] == rows;
      OneMoreKey(rows, k, n);
      NewKeysDistinct(some, k, keys);
      var unseen, more := NewRows(rows, k, keys), NewRows(some, k, keys);
      if key !in keys {
        assert unseen == more + [rows[n]] && unseen[..|more|] == more;
        OneMoreKey(unseen, k, |more|);
        assert unseen[..|more| + 1] == unseen;
      } else {
        assert unseen == more;
      }
    }
  }

  lemma {:induction false} JoinedKeys(a: seq<Row>, b: seq<Row>, k: nat)
    requires RowsHave(a, k) && RowsHave(b, k)
    requires Distinct(Keys(a, k)) && Distinct(Keys(b, k)) && KeySet(a, k) !! KeySet(b, k)
    ensures RowsHave(a + b, k) && Distinct(Keys(a + b, k)) && KeySet(a + b, k) == KeySet(a, k) + KeySet(b, k)
  {
    assert Keys(a + b, k) == Keys(a, k) + Keys(b, k);
    var s, t := Keys(a, k), Keys(b, k);
    forall i, j | 0 <= i < j < |s + t| ensures (s + t)[i] != (s + t)[j] {
      if i < |s| <= j {
        assert s[i] in KeySet(a, k) && t[j - |s|] in KeySet(b, k);
      }
    }
  }

  /** The keys of the merged rows are those of both tables, each once. */
  lemma {:induction false} MergedKeys(present: seq<Row>, rows: seq<Row>, k: nat)
    requires RowsHave(present, k) && RowsHave(rows, k) && Distinct(Keys(present, k)) && Distinct(Keys(rows, k))
    ensures var all := present + NewRows(rows, k, KeySet(present, k));
            RowsHave(all, k) && Distinct(Keys(all, k)) && KeySet(all, k) == KeySet(present, k) + KeySet(rows, k)
  {
    NewKeysDistinct(rows, k, KeySet(present, k));
    JoinedKeys(present, NewRows(rows, k, KeySet(present, k)), k);
  }

  lemma {:induction false} NothingNew(rows: seq<Row>, k: nat, keys: set<string>)
    requires RowsHave(rows, k) && KeySet(rows, k) <= keys
    ensures NewRows(rows, k, keys) == []
  {
    if rows != [] {
      var n := |rows| - 1;
      assert rows[..n + 1] == rows;
      KeysOfPrefix(rows, k, n);
      NothingNew(rows[..n], k, keys);
    }
  }

  lemma {:induction false} KeysOfPrefix(rows: seq<Row>, k: nat, n: nat)
    requires RowsHave(rows, k) && n < |rows|
    ensures KeySet(rows[..n], k) <= KeySet(rows, k) && rows[n][k] in KeySet(rows, k)
  {
    assert Keys(rows[..n], k) == Keys(rows, k)[..n];
    assert Keys(rows, k)[n] == rows[n][k];
  }

  lemma {:induction false} NewRowsFit(rows: seq<Row>, k: nat, keys: set<string>, width: nat)
    requires RowsHave(rows, k) && forall i :: 0 <= i < |rows| ==> |rows[i]| == width
    ensures forall i :: 0 <= i < |NewRows(rows, k, keys)| ==> |NewRows(rows, k, keys)[i]| == width
  {
    if rows != [] { NewRowsFit(rows[..|rows| - 1], k, keys, width); }
  }

  function Present(existing: Option<CsvTable>): seq<Row> {
    if existing.Some? then existing.value.rows else []
  }

  /** What the caller of a merge provides. */
  ghost predicate Inputs(existing: Option<CsvTable>, incoming: CsvTable, key: string, find: Finder) {
    (existing.Some? ==> Fits(existing.value)) && Fits(incoming) && Finds(find, key)
  }

  /** A successful merge, in its parts. */
  lemma {:induction false} MergeParts(existing: Option<CsvTable>, incoming: CsvTable, key: string, find: Finder)
    requires Inputs(existing, incoming, key, find) && MergeOf(existing, incoming, key, find).Ok?
    ensures find(incoming.headers, key).Some? && find(incoming.headers, key).value < |incoming.headers|
    ensures var k := find(incoming.headers, key).value;
            && RowsHave(Present(existing), k) && RowsHave(incoming.rows, k)
            && Distinct(Keys(Present(existing), k)) && Distinct(Keys(incoming.rows, k))
            && (existing.Some? ==> existing.value.headers == incoming.headers)
            && var keys := KeySet(Present(existing), k);
               var unseen := NewRows(incoming.rows, k, keys);
               MergeOf(existing, incoming, key, find).value == Merged(
                 CsvTable(incoming.headers, Present(existing) + unseen), |unseen|, Known(incoming.rows, k, keys))
  {
  }

  /** A merge keeps the existing rows in front and adds exactly the incoming rows with new keys. */
  lemma {:induction false} MergeAdds(existing: Option<CsvTable>, incoming: CsvTable, key: string, find: Finder,
                                     row: Row)
    requires Inputs(existing, incoming, key, find) && MergeOf(existing, incoming, key, find).Ok?
    ensures var m := MergeOf(existing, incoming, key, find).value;
            && Present(existing) <= m.table.rows && |m.table.rows| == |Present(existing)| + m.added
            && find(incoming.headers, key).Some?
            && var k := find(incoming.headers, key).value;
               && RowsHave(Present(existing), k)
               && (row in m.table.rows[|Present(existing)|..] <==>
                     row in incoming.rows && k < |row| && row[k] !in KeySet(Present(existing), k))
  {
    MergeParts(existing, incoming, key, find);
    var k := find(incoming.headers, key).value;
    var keys := KeySet(Present(existing), k);
    var unseen := NewRows(incoming.rows, k, keys);
    NewRowsAre(incoming.rows, k, keys, row);
    assert (Present(existing) + unseen)[|Present(existing)|..] == unseen;
  }

  /** The keys of the merged table are those of both tables, each once, and every incoming row was counted. */
  lemma {:induction false} MergeKeeps(existing: Option<CsvTable>, incoming: CsvTable, key: string, find: Finder)
    requires Inputs(existing, incoming, key, find) && MergeOf(existing, incoming, key, find).Ok?
    ensures var m := MergeOf(existing, incoming, key, find).value;
            && m.added + m.skipped == |incoming.rows|
            && m.table.headers == incoming.headers && Fits(m.table)
            && find(incoming.headers, key).Some?
            && var k := find(incoming.headers, key).value;
               && RowsHave(m.table.rows, k) && RowsHave(Present(existing), k) && RowsHave(incoming.rows, k)
               && Distinct(Keys(m.table.rows, k))
               && KeySet(m.table.rows, k) == KeySet(Present(existing), k) + KeySet(incoming.rows, k)
  {
    MergeParts(existing, incoming, key, find);
    var k := find(incoming.headers, key).value;
    var keys := KeySet(Present(existing), k);
    AddedAndSkipped(incoming.rows, k, keys);
    NewRowsFit(incoming.rows, k, keys, |incoming.headers|);
    MergedKeys(Present(existing), incoming.rows, k);
  }

  lemma {:induction false} KnownAgain(table: CsvTable, incoming: CsvTable, key: string, find: Finder, k: nat)
    requires Inputs(Some(table), incoming, key, find) && table.headers == incoming.headers
    requires find(incoming.headers, key) == Some(k)
    requires Distinct(Keys(table.rows, k)) && Distinct(Keys(incoming.rows, k))
    requires KeySet(incoming.rows, k) <= KeySet(table.rows, k)
    ensures MergeOf(Some(table), incoming, key, find) == Ok(Merged(table, 0, |incoming.rows|))
  {
    var keys := KeySet(table.rows, k);
    NothingNew(incoming.rows, k, keys);
    AddedAndSkipped(incoming.rows, k, keys);
    MergeIs(table, incoming, key, find, k);
    assert CsvTable(table.headers, table.rows + []) == table;
  }

  lemma {:induction false} MergeIs(table: CsvTable, incoming: CsvTable, key: string, find: Finder, k: nat)
    requires Inputs(Some(table), incoming, key, find) && table.headers == incoming.headers
    requires find(incoming.headers, key) == Some(k)
    requires Distinct(Keys(table.rows, k)) && Distinct(Keys(incoming.rows, k))
    ensures var keys := KeySet(table.rows, k);
            var unseen, known := NewRows(incoming.rows, k, keys), Known(incoming.rows, k, keys);
            MergeOf(Some(table), incoming, key, find)
            == Ok(Merged(CsvTable(table.headers, table.rows + unseen), |unseen|, known))
  {
  }

  /** Merging the same file again adds nothing, skips everything and leaves the table as it is. */
  lemma {:induction false} MergeAgain(existing: Option<CsvTable>, incoming: CsvTable, key: string, find: Finder)
    requires Inputs(existing, incoming, key, find) && MergeOf(existing, incoming, key, find).Ok?
    ensures var m := MergeOf(existing, incoming, key, find).value;
            Fits(m.table) && MergeOf(Some(m.table), incoming, key, find) == Ok(Merged(m.table, 0, |incoming.rows|))
  {
    MergeParts(existing, incoming, key, find);
    MergeKeeps(existing, incoming, key, find);
    KnownAgain(MergeOf(existing, incoming, key, find).value.table, incoming, key, find,
               find(incoming.headers, key).value);
  }

  // ----- When a merge succeeds, and in what order rows stand -----

  /** Two rows with the same key. */
  predicate Repeats(rows: seq<Row>, k: nat)
    requires RowsHave(rows, k)
  {
    exists i, j :: 0 <= i < j < |rows| && rows[i][k] == rows[j][k]
  }

  lemma {:induction false} RepeatsIs(rows: seq<Row>, k: nat)
    requires RowsHave(rows, k)
    ensures Repeats(rows, k) <==> !Distinct(Keys(rows, k))
  {
    if !Distinct(Keys(rows, k)) {
      var i, j :| 0 <= i < j < |rows| && Keys(rows, k)[i] == Keys(rows, k)[j];
      assert rows[i][k] == rows[j][k];
    }
  }

  /** A merge succeeds precisely when the headers agree, the key column is found and no key is there twice in either
      table; what is wrong is told in this order. */
  lemma {:induction false} MergeDecides(existing: Option<CsvTable>, incoming: CsvTable, key: string, find: Finder)
    requires Inputs(existing, incoming, key, find)
    ensures var r, agree := MergeOf(existing, incoming, key, find),
                            existing.Some? ==> existing.value.headers == incoming.headers;
            && (!agree ==> r == Err(HEADERS))
            && (agree && find(incoming.headers, key).None? ==> r == Err(NO_KEY))
            && (agree && find(incoming.headers, key).Some? ==>
                  var k := find(incoming.headers, key).value;
                  && RowsHave(Present(existing), k) && RowsHave(incoming.rows, k)
                  && (Repeats(Present(existing), k) ==> r == Err(EXISTING_TWICE))
                  && (!Repeats(Present(existing), k) && Repeats(incoming.rows, k) ==> r == Err(INCOMING_TWICE))
                  && (!Repeats(Present(existing), k) && !Repeats(incoming.rows, k) ==> r.Ok?))
  {
    if find(incoming.headers, key).Some? && (existing.Some? ==> existing.value.headers == incoming.headers) {
      var k := find(incoming.headers, key).value;
      RepeatsIs(Present(existing), k);
      RepeatsIs(incoming.rows, k);
    }
  }

  /** Some of the rows, at increasing places. */
  ghost predicate StandAt(rows: seq<Row>, some: seq<Row>, at: seq<nat>) {
    && |at| == |some| && (forall i :: 0 <= i < |at| ==> at[i] < |rows| && rows[at[i]] == some[i])
    && (forall i, j :: 0 <= i < j < |at| ==> at[i] < at[j])
  }

  lemma {:induction false} StandFurther(rows: seq<Row>, last: Row, some: seq<Row>, at: seq<nat>)
    requires StandAt(rows, some, at)
    ensures StandAt(rows + [last], some, at) && StandAt(rows + [last], some + [last], at + [|rows|])
  {
  }

  /** The places of the rows with unknown keys. */
  ghost predicate UnknownAt(rows: seq<Row>, k: nat, keys: set<string>, at: seq<nat>)
    requires RowsHave(rows, k)
  {
    forall j: nat :: j in at <==> j < |rows| && rows[j][k] !in keys
  }

  lemma {:induction false} UnknownFurther(rows: seq<Row>, last: Row, k: nat, keys: set<string>, at: seq<nat>)
    requires RowsHave(rows, k) && k < |last| && UnknownAt(rows, k, keys, at)
    ensures RowsHave(rows + [last], k)
    ensures UnknownAt(rows + [last], k, keys, if last[k] in keys then at else at + [|rows|])
  {
    var more := rows + [last];
    forall j: nat
      ensures j in (if last[k] in keys then at else at + [|rows|]) <==> j < |more| && more[j][k] !in keys
    {
      if j < |rows| { assert more[j] == rows[j]; }
    }
  }

  /** The new rows stand in the order of the incoming file: they are its rows at the places of the unknown keys. */
  lemma {:induction false} NewRowsInOrder(rows: seq<Row>, k: nat, keys: set<string>) returns (at: seq<nat>)
    requires RowsHave(rows, k)
    ensures StandAt(rows, NewRows(rows, k, keys), at) && UnknownAt(rows, k, keys, at)
  {
    at := [];
    if rows != [] {
      var n := |rows| - 1;
      var init, last := rows[..n], rows[n];
      var before := NewRowsInOrder(init, k, keys);
      StandFurther(init, last, NewRows(init, k, keys), before);
      UnknownFurther(init, last, k, keys, before);
      assert init + [last] == rows;
      at := if last[k] in keys then before else before + [n];
      assert NewRows(init, k, keys) + [] == NewRows(init, k, keys);
    }
  }
}
