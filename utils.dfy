/** The output side: the header of a CSV file written from a list of row
    dictionaries, and the two transfer summaries (a count per counterparty
    and blueprint name, and a count per blueprint name). */
module Utils {
  import opened Common

  // ---------------------------------------------------------------------
  // CSV header
  // ---------------------------------------------------------------------

  /** The keys of the rows, row by row. */
  ghost function KeyUnion(rows: seq<Dict>): (u: set<string>)
    ensures forall i :: 0 <= i < |rows| ==> rows[i].Keys <= u
    decreases |rows|
  {
    if rows == [] then {}
    else
      var pre := rows[..|rows| - 1];
      assert forall i :: 0 <= i < |pre| ==> pre[i] == rows[i];
      KeyUnion(pre) + rows[|rows| - 1].Keys
  }

  /** Every key of the union is a key of some row. */
  lemma {:induction false} KeyUnionOnly(rows: seq<Dict>)
    ensures forall k :: k in KeyUnion(rows) ==> exists i :: 0 <= i < |rows| && k in rows[i]
    decreases |rows|
  {
    if rows != [] {
      var n := |rows| - 1;
      var pre := rows[..n];
      KeyUnionOnly(pre);
      forall k | k in KeyUnion(rows) ensures exists i :: 0 <= i < |rows| && k in rows[i] {
        if k !in rows[n] {
          assert k in KeyUnion(pre);
          var i :| 0 <= i < n && k in pre[i];
          assert pre[i] == rows[i];
        }
      }
    }
  }

  /** The key union of `write_list_of_dicts_to_csv`: every key of every row,
      and nothing else. */
  method CsvFieldNames(rows: seq<Dict>) returns (keys: set<string>)
    ensures forall i :: 0 <= i < |rows| ==> rows[i].Keys <= keys
    ensures forall k :: k in keys ==> exists i :: 0 <= i < |rows| && k in rows[i]
    ensures rows == [] ==> keys == {}
  {
    keys := {};
    var i := 0;
    while i < |rows|
      invariant 0 <= i <= |rows|
      invariant keys == KeyUnion(rows[..i])
    {
      assert rows[..i + 1][..i] == rows[..i];
      keys := keys + rows[i].Keys;
      i := i + 1;
    }
    assert rows[..i] == rows;
    KeyUnionOnly(rows);
  }

  // ---------------------------------------------------------------------
  // Transfer summaries
  // ---------------------------------------------------------------------

  const BlueprintNameColumn: string := "asset_blueprint_name"

  /** The column the summaries are keyed by: the receiver for outgoing
      transfers, the sender for any other direction. */
  function IndexColumn(direction: string): (c: string)
    ensures direction == "out" ==> c == "receiver"
    ensures direction != "out" ==> c == "user"
  {
    if direction == "out" then "receiver" else "user"
  }

  /** A cell of the data frame built from the rows: a row without the
      column holds a missing value there. */
  function Cell(row: Dict, col: string): Json
  {
    if col in row then row[col] else JNull
  }

  /** The data frame has a column when some row has that key. */
  predicate HasColumn(rows: seq<Dict>, col: string)
  {
    exists i :: 0 <= i < |rows| && col in rows[i]
  }

  /** The pivot table: for each (key, blueprint name) pair with neither
      missing, the number of rows carrying it. Missing group keys are
      dropped, and a pair no row carries has no entry. */
  function CrossTab(rows: seq<Dict>, col: string): (ct: map<(Json, Json), nat>)
    ensures |ct| <= |rows|
    decreases |rows|
  {
    if rows == [] then map[]
    else
      var prev := CrossTab(rows[..|rows| - 1], col);
      var r := rows[|rows| - 1];
      var p := (Cell(r, col), Cell(r, BlueprintNameColumn));
      if p.0 == JNull || p.1 == JNull then prev
      else prev[p := (if p in prev then prev[p] else 0) + 1]
  }

  /** The group-by sum of ones: for each blueprint name that is not missing,
      the number of rows carrying it. */
  function Totals(rows: seq<Dict>): (t: map<Json, nat>)
    ensures |t| <= |rows|
    decreases |rows|
  {
    if rows == [] then map[]
    else
      var prev := Totals(rows[..|rows| - 1]);
      var b := Cell(rows[|rows| - 1], BlueprintNameColumn);
      if b == JNull then prev
      else prev[b := (if b in prev then prev[b] else 0) + 1]
  }

  /** Why the summaries cannot be built: a column they select is absent
      from every row (the `KeyError` of the column selection). */
  datatype SummaryError = MissingColumn(name: string)

  datatype Summaries = Summaries(byKey: map<(Json, Json), nat>, totals: map<Json, nat>)

  /** `create_transfer_summaries` over the rows of `Transfer.to_dict`. */
  function CreateTransferSummaries(rows: seq<Dict>, direction: string): (r: Result<Summaries, SummaryError>)
    ensures r.Err? <==> !HasColumn(rows, BlueprintNameColumn) || !HasColumn(rows, IndexColumn(direction))
    ensures r.Err? ==>
              && r.error.name in {BlueprintNameColumn, IndexColumn(direction)}
              && !HasColumn(rows, r.error.name)
    ensures rows == [] ==> r.Err?
    ensures r.Ok? ==> r.value.byKey == CrossTab(rows, IndexColumn(direction)) && r.value.totals == Totals(rows)
  {
    var col := IndexColumn(direction);
    if !HasColumn(rows, BlueprintNameColumn) then Err(MissingColumn(BlueprintNameColumn))
    else if !HasColumn(rows, col) then Err(MissingColumn(col))
    else Ok(Summaries(CrossTab(rows, col), Totals(rows)))
  }

  /** The cross tab of two rows (U1, "Foo") and one (U2, "Bar"). */
  lemma CrossTabExample(r1: Dict, r3: Dict)
    requires r1 == map["receiver" := JStr("U1"), "asset_blueprint_name" := JStr("Foo")]
    requires r3 == map["receiver" := JStr("U2"), "asset_blueprint_name" := JStr("Bar")]
    ensures CrossTab([r1, r1, r3], "receiver") == map[(JStr("U1"), JStr("Foo")) := 2, (JStr("U2"), JStr("Bar")) := 1]
  {
    var rows := [r1, r1, r3];
    assert rows[..2] == [r1, r1] && rows[..2][..1] == [r1] && rows[..2][..1][..0] == [];
    assert Cell(r1, "receiver") == JStr("U1") && Cell(r1, BlueprintNameColumn) == JStr("Foo");
    assert Cell(r3, "receiver") == JStr("U2") && Cell(r3, BlueprintNameColumn) == JStr("Bar");
    assert CrossTab([r1], "receiver") == map[(JStr("U1"), JStr("Foo")) := 1];
    assert CrossTab([r1, r1], "receiver") == map[(JStr("U1"), JStr("Foo")) := 2];
  }

  /** The totals of two rows named "Foo" and one named "Bar". */
  lemma TotalsExample(r1: Dict, r3: Dict)
    requires r1 == map["receiver" := JStr("U1"), "asset_blueprint_name" := JStr("Foo")]
    requires r3 == map["receiver" := JStr("U2"), "asset_blueprint_name" := JStr("Bar")]
    ensures Totals([r1, r1, r3]) == map[JStr("Foo") := 2, JStr("Bar") := 1]
  {
    var rows := [r1, r1, r3];
    assert rows[..2] == [r1, r1] && rows[..2][..1] == [r1] && rows[..2][..1][..0] == [];
    assert Cell(r1, BlueprintNameColumn) == JStr("Foo") && Cell(r3, BlueprintNameColumn) == JStr("Bar");
    assert Totals([r1]) == map[JStr("Foo") := 1];
    assert Totals([r1, r1]) == map[JStr("Foo") := 2];
  }

  /** Two outgoing transfers of "Foo" to U1 and one of "Bar" to U2. */
  lemma SummariesExample()
    ensures var rows := [map["receiver" := JStr("U1"), "asset_blueprint_name" := JStr("Foo")],
                         map["receiver" := JStr("U1"), "asset_blueprint_name" := JStr("Foo")],
                         map["receiver" := JStr("U2"), "asset_blueprint_name" := JStr("Bar")]];
            CreateTransferSummaries(rows, "out") ==
              Ok(Summaries(map[(JStr("U1"), JStr("Foo")) := 2, (JStr("U2"), JStr("Bar")) := 1],
                           map[JStr("Foo") := 2, JStr("Bar") := 1]))
  {
    var r1: Dict := map["receiver" := JStr("U1"), "asset_blueprint_name" := JStr("Foo")];
    var r3: Dict := map["receiver" := JStr("U2"), "asset_blueprint_name" := JStr("Bar")];
    var rows := [r1, r1, r3];
    assert HasColumn(rows, BlueprintNameColumn) && HasColumn(rows, "receiver") by {
      assert BlueprintNameColumn in rows[0] && "receiver" in rows[0];
    }
    CrossTabExample(r1, r3);
    TotalsExample(r1, r3);
  }

  /** Reference definition: the rows carrying `key` and blueprint name `bp`. */
  ghost function Matches(rows: seq<Dict>, col: string, key: Json, bp: Json): set<nat>
  {
    set i: nat | i < |rows| && Cell(rows[i], col) == key && Cell(rows[i], BlueprintNameColumn) == bp
  }

  /** Reference definition: the rows carrying blueprint name `bp`. */
  ghost function NameMatches(rows: seq<Dict>, bp: Json): set<nat>
  {
    set i: nat | i < |rows| && Cell(rows[i], BlueprintNameColumn) == bp
  }

  lemma MatchesSnoc(rows: seq<Dict>, col: string, key: Json, bp: Json)
    requires rows != []
    ensures var n := |rows| - 1;
            var last := Cell(rows[n], col) == key && Cell(rows[n], BlueprintNameColumn) == bp;
            && Matches(rows, col, key, bp) == Matches(rows[..n], col, key, bp) + (if last then {n} else {})
            && n !in Matches(rows[..n], col, key, bp)
  {
    var n := |rows| - 1;
    assert forall i :: 0 <= i < n ==> rows[..n][i] == rows[i];
  }

  lemma NameMatchesSnoc(rows: seq<Dict>, bp: Json)
    requires rows != []
    ensures var n := |rows| - 1;
            && NameMatches(rows, bp) ==
                 NameMatches(rows[..n], bp) + (if Cell(rows[n], BlueprintNameColumn) == bp then {n} else {})
            && n !in NameMatches(rows[..n], bp)
  {
    var n := |rows| - 1;
    assert forall i :: 0 <= i < n ==> rows[..n][i] == rows[i];
  }

  /** A cross-tab cell exists exactly for a pair of present values that some
      row carries, and holds the number of rows carrying it. */
  lemma {:induction false} CrossTabCounts(rows: seq<Dict>, col: string, key: Json, bp: Json)
    ensures var ct := CrossTab(rows, col);
            (key, bp) in ct <==> key != JNull && bp != JNull && |Matches(rows, col, key, bp)| > 0
    ensures var ct := CrossTab(rows, col);
            (key, bp) in ct ==> ct[(key, bp)] == |Matches(rows, col, key, bp)|
    decreases |rows|
  {
    if rows != [] {
      CrossTabCounts(rows[..|rows| - 1], col, key, bp);
      MatchesSnoc(rows, col, key, bp);
    }
  }

  /** A total exists exactly for a present blueprint name some row carries,
      and holds the number of rows carrying it. */
  lemma {:induction false} TotalsCount(rows: seq<Dict>, bp: Json)
    ensures bp in Totals(rows) <==> bp != JNull && |NameMatches(rows, bp)| > 0
    ensures bp in Totals(rows) ==> Totals(rows)[bp] == |NameMatches(rows, bp)|
    decreases |rows|
  {
    if rows != [] {
      TotalsCount(rows[..|rows| - 1], bp);
      NameMatchesSnoc(rows, bp);
    }
  }

  // ---------------------------------------------------------------------
  // Column sums
  // ---------------------------------------------------------------------

  /** The sum of the values of `m` under the keys `ks`. */
  ghost function SumOver(m: map<Json, nat>, ks: set<Json>): nat
    requires ks <= m.Keys
    decreases ks
  {
    if ks == {} then 0
    else
      var k :| k in ks;
      m[k] + SumOver(m, ks - {k})
  }

  lemma {:induction false} SumOverRemove(m: map<Json, nat>, ks: set<Json>, k: Json)
    requires ks <= m.Keys && k in ks
    ensures SumOver(m, ks) == m[k] + SumOver(m, ks - {k})
    decreases ks
  {
    var j :| j in ks && SumOver(m, ks) == m[j] + SumOver(m, ks - {j});
    if j != k {
      SumOverRemove(m, ks - {j}, k);
      SumOverRemove(m, ks - {k}, j);
      assert ks - {j} - {k} == ks - {k} - {j};
    }
  }

  /** The sum only reads the values under the keys summed. */
  lemma {:induction false} SumOverAgree(m: map<Json, nat>, m': map<Json, nat>, ks: set<Json>)
    requires ks <= m.Keys && ks <= m'.Keys
    requires forall k :: k in ks ==> m[k] == m'[k]
    ensures SumOver(m, ks) == SumOver(m', ks)
    decreases ks
  {
    if ks != {} {
      var k :| k in ks && SumOver(m, ks) == m[k] + SumOver(m, ks - {k});
      SumOverRemove(m', ks, k);
      SumOverAgree(m, m', ks - {k});
    }
  }

  /** The sum of the values of a map. */
  ghost function SumValues(m: map<Json, nat>): nat
  {
    SumOver(m, m.Keys)
  }

  /** Counting one more row under `k` adds one to the sum. */
  lemma SumValuesBump(m: map<Json, nat>, k: Json)
    ensures SumValues(m[k := (if k in m then m[k] else 0) + 1]) == SumValues(m) + 1
  {
    var m' := m[k := (if k in m then m[k] else 0) + 1];
    var rest := m.Keys - {k};
    assert m'.Keys - {k} == rest;
    SumOverRemove(m', m'.Keys, k);
    SumOverAgree(m, m', rest);
    if k in m {
      SumOverRemove(m, m.Keys, k);
    } else {
      assert m.Keys == rest;
    }
  }

  /** Column `bp` of the cross tab, keyed by the index value. */
  ghost function ColumnOf(ct: map<(Json, Json), nat>, bp: Json): map<Json, nat>
  {
    map k | k in (set p | p in ct.Keys && p.1 == bp :: p.0) :: ct[(k, bp)]
  }

  lemma ColumnOfBump(ct: map<(Json, Json), nat>, k: Json, b: Json, bp: Json)
    ensures var ct' := ct[(k, b) := (if (k, b) in ct then ct[(k, b)] else 0) + 1];
            var col := ColumnOf(ct, bp);
            ColumnOf(ct', bp) == if b == bp then col[k := (if k in col then col[k] else 0) + 1] else col
  {
  }

  /** Counting one row under (k, b) keeps a column sum equal to its total. */
  lemma ColumnSumStep(ct: map<(Json, Json), nat>, totals: map<Json, nat>, k: Json, b: Json, bp: Json)
    requires SumValues(ColumnOf(ct, bp)) == if bp in totals then totals[bp] else 0
    ensures var ct' := ct[(k, b) := (if (k, b) in ct then ct[(k, b)] else 0) + 1];
            var totals' := totals[b := (if b in totals then totals[b] else 0) + 1];
            SumValues(ColumnOf(ct', bp)) == if bp in totals' then totals'[bp] else 0
  {
    ColumnOfBump(ct, k, b, bp);
    if b == bp {
      SumValuesBump(ColumnOf(ct, bp), k);
    }
  }

  /** Counting the last row, whose index value is present, keeps a column
      sum equal to its total. */
  lemma ColumnSumLast(rows: seq<Dict>, col: string, bp: Json)
    requires rows != [] && Cell(rows[|rows| - 1], col) != JNull
    requires var pre := rows[..|rows| - 1];
             SumValues(ColumnOf(CrossTab(pre, col), bp)) == if bp in Totals(pre) then Totals(pre)[bp] else 0
    ensures SumValues(ColumnOf(CrossTab(rows, col), bp)) == if bp in Totals(rows) then Totals(rows)[bp] else 0
  {
    var pre := rows[..|rows| - 1];
    var r := rows[|rows| - 1];
    var k := Cell(r, col);
    var b := Cell(r, BlueprintNameColumn);
    if b != JNull {
      var ct := CrossTab(pre, col);
      var totals := Totals(pre);
      assert CrossTab(rows, col) == ct[(k, b) := (if (k, b) in ct then ct[(k, b)] else 0) + 1];
      assert Totals(rows) == totals[b := (if b in totals then totals[b] else 0) + 1];
      ColumnSumStep(ct, totals, k, b, bp);
    } else {
      assert CrossTab(rows, col) == CrossTab(pre, col) && Totals(rows) == Totals(pre);
    }
  }

  /** When every row has its index value, the cells of a blueprint's column
      add up to that blueprint's total. */
  lemma {:induction false} ColumnSum(rows: seq<Dict>, col: string, bp: Json)
    requires bp != JNull
    requires forall i :: 0 <= i < |rows| ==> Cell(rows[i], col) != JNull
    ensures SumValues(ColumnOf(CrossTab(rows, col), bp)) == if bp in Totals(rows) then Totals(rows)[bp] else 0
    decreases |rows|
  {
    if rows == [] {
      assert ColumnOf(CrossTab(rows, col), bp) == map[];
    } else {
      var pre := rows[..|rows| - 1];
      assert forall i :: 0 <= i < |pre| ==> Cell(pre[i], col) != JNull by {
        forall i | 0 <= i < |pre| ensures Cell(pre[i], col) != JNull {
          assert pre[i] == rows[i];
        }
      }
      ColumnSum(pre, col, bp);
      ColumnSumLast(rows, col, bp);
    }
  }
}
