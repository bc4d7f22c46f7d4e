/**
 * The segment index the dictionary-based update scripts build before their
 * loop: every data row (the header row 0 is skipped) with at least four
 * cells and a non-blank first cell maps its stripped first-cell text to its
 * row number. A later row with the same id overwrites an earlier one.
 */
module RowIndex {
  import opened Wrappers
  import opened Text
  import opened Docx

  /** The id a data row contributes to the index, if any. */
  function RowKey(row: Row): Option<string>
    reads set c | c in row.cells
  {
    if |row.cells| >= 4 && Strip(CellText(row.cells[0].paragraphs)) != [] then
      Some(Strip(CellText(row.cells[0].paragraphs)))
    else None
  }

  /** The ids the rows contribute, row by row. */
  function RowKeys(rows: seq<Row>): (ks: seq<Option<string>>)
    reads CellsOf(rows)
    ensures |ks| == |rows|
    ensures forall i :: 0 <= i < |rows| ==> ks[i] == RowKey(rows[i])
  {
    if rows == [] then []
    else
      assert forall c :: c in rows[0].cells ==> c in CellsOf(rows);
      [RowKey(rows[0])] + RowKeys(rows[1..])
  }

  /** The ids by table row number; the header row contributes none. */
  function TableKeys(table: seq<Row>): (ks: seq<Option<string>>)
    reads CellsOf(table)
    ensures |ks| == |table|
    ensures forall i :: 1 <= i < |table| ==> ks[i] == RowKey(table[i])
    ensures table != [] ==> ks[0] == None
  {
    if table == [] then [] else [None] + RowKeys(table[1..])
  }

  /** Position by id over the first `n` keys, built by assigning every present id in order,
      so the last position wins. */
  function IndexMap(keys: seq<Option<string>>, n: nat): (m: map<string, nat>)
    requires n <= |keys|
    ensures forall k :: k in m ==> m[k] < n && keys[m[k]] == Some(k)
  {
    if n == 0 then map[]
    else
      var m := IndexMap(keys, n - 1);
      if keys[n - 1].Some? then m[keys[n - 1].value := n - 1] else m
  }

  /** Every present id is indexed, and at the last position that carries it. */
  lemma {:induction false} IndexMapLastWins(keys: seq<Option<string>>, n: nat)
    requires n <= |keys|
    ensures forall i :: 0 <= i < n && keys[i].Some? ==> keys[i].value in IndexMap(keys, n)
    ensures forall k, j :: k in IndexMap(keys, n) && IndexMap(keys, n)[k] < j < n ==> keys[j] != Some(k)
  {
    if n > 0 {
      IndexMapLastWins(keys, n - 1);
      var m0 := IndexMap(keys, n - 1);
      var m := IndexMap(keys, n);
      forall k, j | k in m && m[k] < j < n
        ensures keys[j] != Some(k)
      {
        if keys[n - 1] != Some(k) {
          assert k in m0 && m[k] == m0[k];
        }
      }
    }
  }

  /** The index of a table: `{id: row number}` over the data rows. */
  function RowMap(table: seq<Row>): (m: map<string, nat>)
    reads CellsOf(table)
    ensures forall k :: k in m ==> 1 <= m[k] < |table| && RowKey(table[m[k]]) == Some(k)
  {
    IndexMap(TableKeys(table), |table|)
  }

  /** Every data row that carries an id is indexed under it, the index points at a row
      carrying that id, and no later row carries it. */
  lemma RowMapSpec(table: seq<Row>)
    ensures forall i :: 1 <= i < |table| && RowKey(table[i]).Some? ==> RowKey(table[i]).value in RowMap(table)
    ensures forall k :: k in RowMap(table) ==>
      1 <= RowMap(table)[k] < |table| && RowKey(table[RowMap(table)[k]]) == Some(k)
    ensures forall k, j :: k in RowMap(table) && RowMap(table)[k] < j < |table| ==> RowKey(table[j]) != Some(k)
  {
    var keys := TableKeys(table);
    IndexMapLastWins(keys, |table|);
    forall k | k in RowMap(table)
      ensures 1 <= RowMap(table)[k] < |table| && RowKey(table[RowMap(table)[k]]) == Some(k)
    {
      assert keys[RowMap(table)[k]] == Some(k);
    }
  }

  /** Every id of the index names a row with a fourth cell. */
  predicate IndexesTable(table: seq<Row>, rowMap: map<string, nat>)
  {
    forall k :: k in rowMap ==> rowMap[k] < |table| && |table[rowMap[k]].cells| >= 4
  }

  /** Builds the index row by row, as the scripts' loop over `table.rows[1:]` does. */
  method BuildRowMap(table: seq<Row>) returns (m: map<string, nat>)
    ensures m == RowMap(table)
    ensures forall k :: k in m ==> 1 <= m[k] < |table| && |table[m[k]].cells| >= 4
  {
    ghost var keys := TableKeys(table);
    m := map[];
    if table == [] {
      return;
    }
    var i := 1;
    while i < |table|
      invariant 1 <= i <= |table|
      invariant m == IndexMap(keys, i)
    {
      assert keys[i] == RowKey(table[i]);
      var row := table[i];
      if |row.cells| >= 4 {
        var id := Strip(CellText(row.cells[0].paragraphs));
        if id != [] {
          m := m[id := i];
        }
      }
      i := i + 1;
    }
    RowMapSpec(table);
  }
}
