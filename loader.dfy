/** Stage 1, the table loader: drops header-artefact and blank-id rows and
    picks the sample columns of each condition by name prefix. */
module Loader {
  import opened Common

  /** One cell of a parsed table; `Missing` is pandas' NaN. */
  datatype Cell = Missing | Text(text: string) | Num(value: real)

  /** A row maps column names to cells; a column absent from the map reads as `Missing`. */
  type Row = map<string, Cell>

  datatype Table = Table(columns: seq<string>, rows: seq<Row>)

  /** A cleaned row, with its identifier already read as text. */
  datatype Record = Record(id: string, cells: Row)

  datatype LoadError =
    | MissingColumn(column: string)  // the identifier column does not exist
    | NonTextId(column: string)      // a surviving identifier is a number, not a name

  function Get(r: Row, c: string): Cell
  {
    if c in r then r[c] else Missing
  }

  /** Header-artefact identifiers dropped from each dataset. */
  const GeneArtefacts: seq<string> := ["Class"]
  const LipidArtefacts: seq<string> := ["Label", "Metabolite"]

  /** One artefact mask: rows whose identifier is exactly `artefact` are dropped. */
  function DropId(rows: seq<Row>, col: string, artefact: string): seq<Row>
  {
    Filter(rows, (r: Row) => Get(r, col) != Text(artefact))
  }

  /** The artefact masks, applied one after the other in the given order. */
  function DropArtefacts(rows: seq<Row>, col: string, artefacts: seq<string>): seq<Row>
    decreases |artefacts|
  {
    if artefacts == [] then rows
    else DropArtefacts(DropId(rows, col, artefacts[0]), col, artefacts[1..])
  }

  /** The blank-identifier mask: rows whose identifier is missing are dropped. */
  function DropMissing(rows: seq<Row>, col: string): seq<Row>
  {
    Filter(rows, (r: Row) => Get(r, col) != Missing)
  }

  /** The rows the cleaning masks let through. */
  function CleanRows(rows: seq<Row>, col: string, artefacts: seq<string>): seq<Row>
  {
    DropMissing(DropArtefacts(rows, col, artefacts), col)
  }

  /** Whether a row survives cleaning: its identifier is present and is none of the artefacts. */
  predicate Kept(r: Row, col: string, artefacts: seq<string>)
  {
    Get(r, col) != Missing && forall k :: 0 <= k < |artefacts| ==> Get(r, col) != Text(artefacts[k])
  }

  lemma {:induction false} DropArtefactsAppend(a: seq<Row>, b: seq<Row>, col: string, artefacts: seq<string>)
    ensures DropArtefacts(a + b, col, artefacts) == DropArtefacts(a, col, artefacts) + DropArtefacts(b, col, artefacts)
    decreases |artefacts|
  {
    if artefacts != [] {
      FilterAppend(a, b, (r: Row) => Get(r, col) != Text(artefacts[0]));
      DropArtefactsAppend(DropId(a, col, artefacts[0]), DropId(b, col, artefacts[0]), col, artefacts[1..]);
    }
  }

  /** Cleaning keeps rows in their original order: it works row by row over a concatenation. */
  lemma CleanRowsAppend(a: seq<Row>, b: seq<Row>, col: string, artefacts: seq<string>)
    ensures CleanRows(a + b, col, artefacts) == CleanRows(a, col, artefacts) + CleanRows(b, col, artefacts)
  {
    DropArtefactsAppend(a, b, col, artefacts);
    FilterAppend(DropArtefacts(a, col, artefacts), DropArtefacts(b, col, artefacts), (r: Row) => Get(r, col) != Missing);
  }

  lemma {:induction false} DropArtefactsSingle(r: Row, col: string, artefacts: seq<string>)
    ensures DropArtefacts([r], col, artefacts)
         == if forall k :: 0 <= k < |artefacts| ==> Get(r, col) != Text(artefacts[k]) then [r] else []
    decreases |artefacts|
  {
    if artefacts != [] {
      var rest := artefacts[1..];
      assert forall k :: 0 <= k < |rest| ==> rest[k] == artefacts[k + 1];
      if Get(r, col) == Text(artefacts[0]) {
        assert DropId([r], col, artefacts[0]) == [];
        assert DropArtefacts([], col, rest) == [] by {
          DropArtefactsAppend([], [], col, rest);
        }
      } else {
        assert DropId([r], col, artefacts[0]) == [r];
        DropArtefactsSingle(r, col, rest);
      }
    }
  }

  /** A single row survives cleaning exactly when it is `Kept`. */
  lemma CleanRowsSingle(r: Row, col: string, artefacts: seq<string>)
    ensures CleanRows([r], col, artefacts) == if Kept(r, col, artefacts) then [r] else []
  {
    DropArtefactsSingle(r, col, artefacts);
  }

  /** Cleaning is exactly the order-preserving selection of the `Kept` rows:
      every survivor is `Kept`, and every `Kept` row survives. */
  lemma {:induction false} CleanRowsExact(rows: seq<Row>, col: string, artefacts: seq<string>)
    ensures forall r :: r in CleanRows(rows, col, artefacts) <==> r in rows && Kept(r, col, artefacts)
  {
    if rows != [] {
      assert rows == [rows[0]] + rows[1..];
      CleanRowsAppend([rows[0]], rows[1..], col, artefacts);
      CleanRowsSingle(rows[0], col, artefacts);
      CleanRowsExact(rows[1..], col, artefacts);
      forall r ensures r in CleanRows(rows, col, artefacts) <==> r in rows && Kept(r, col, artefacts) {
        assert r in rows <==> r == rows[0] || r in rows[1..];
      }
    } else {
      CleanRowsAppend([], [], col, artefacts);
    }
  }

  /** Every row's identifier is text. */
  predicate TextIds(rows: seq<Row>, col: string)
  {
    forall i :: 0 <= i < |rows| ==> Get(rows[i], col).Text?
  }

  /** The cleaned rows as records: each identifier is read as text. */
  function ToRecords(rows: seq<Row>, col: string): (recs: seq<Record>)
    requires TextIds(rows, col)
    ensures |recs| == |rows|
    ensures forall i :: 0 <= i < |rows| ==> recs[i].cells == rows[i] && Get(rows[i], col) == Text(recs[i].id)
  {
    seq(|rows|, i requires 0 <= i < |rows| => Record(Get(rows[i], col).text, rows[i]))
  }

  /** Cleans one table by its identifier column and artefact list. A missing
      identifier column is reported instead of cleaning, and so is a surviving identifier
      that is a number; otherwise cleaning succeeds. */
  function Clean(t: Table, col: string, artefacts: seq<string>): (r: Result<seq<Record>, LoadError>)
    ensures col !in t.columns <==> r == Failure(MissingColumn(col))
    ensures r.Success? <==> col in t.columns && TextIds(CleanRows(t.rows, col, artefacts), col)
    ensures r.Success? ==>
      && |r.value| == |CleanRows(t.rows, col, artefacts)|
      && forall i :: 0 <= i < |r.value| ==>
           && r.value[i].cells == CleanRows(t.rows, col, artefacts)[i]
           && Get(r.value[i].cells, col) == Text(r.value[i].id)
           && r.value[i].id !in artefacts
  {
    if col !in t.columns then Failure(MissingColumn(col))
    else
      var rows := CleanRows(t.rows, col, artefacts);
      if !TextIds(rows, col) then Failure(NonTextId(col))
      else
        CleanRowsExact(t.rows, col, artefacts);
        assert forall i :: 0 <= i < |rows| ==> rows[i] in rows;
        Success(ToRecords(rows, col))
  }

  /** Gene cleaning (lipid_gene_sankey_app.py lines 39-40): rows whose identifier is `Class` or missing are dropped. */
  function CleanGenes(t: Table, col: string): (r: Result<seq<Record>, LoadError>)
    ensures col !in t.columns <==> r == Failure(MissingColumn(col))
    ensures r.Success? <==> col in t.columns && TextIds(CleanRows(t.rows, col, GeneArtefacts), col)
    ensures r.Success? ==> forall i :: 0 <= i < |r.value| ==> r.value[i].id != "Class"
  {
    Clean(t, col, GeneArtefacts)
  }

  /** Lipid cleaning (lipid_gene_sankey_app.py lines 43-45): rows whose identifier is `Label`,
      `Metabolite` or missing are dropped. */
  function CleanLipids(t: Table, col: string): (r: Result<seq<Record>, LoadError>)
    ensures col !in t.columns <==> r == Failure(MissingColumn(col))
    ensures r.Success? <==> col in t.columns && TextIds(CleanRows(t.rows, col, LipidArtefacts), col)
    ensures r.Success? ==> forall i :: 0 <= i < |r.value| ==> r.value[i].id != "Label" && r.value[i].id != "Metabolite"
  {
    Clean(t, col, LipidArtefacts)
  }

  /** The columns whose name starts with `prefix` (exact, case-sensitive), in table order. */
  function ColumnsWithPrefix(columns: seq<string>, prefix: string): (r: seq<string>)
    ensures forall c :: c in r <==> c in columns && prefix <= c
    ensures |r| <= |columns|
  {
    var p := (c: string) => prefix <= c;
    assert forall c :: c in columns && p(c) ==> c in Filter(columns, p) by {
      forall c | c in columns && p(c) ensures c in Filter(columns, p) {
        var i :| 0 <= i < |columns| && columns[i] == c;
      }
    }
    Filter(columns, p)
  }

  /** Column selection works column by column, so the selected columns keep table order. */
  lemma ColumnsWithPrefixAppend(a: seq<string>, b: seq<string>, prefix: string)
    ensures ColumnsWithPrefix(a + b, prefix) == ColumnsWithPrefix(a, prefix) + ColumnsWithPrefix(b, prefix)
  {
    FilterAppend(a, b, (c: string) => prefix <= c);
  }
}
