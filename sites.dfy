/**
 * The sites catalog: one row per allowed documentation site, and the schema check
 * that `load_sites_data` performs after the CSV has been read into a table.
 */
module Sites {
  import opened Wrappers

  /** The three columns of a site row that the agent reads. */
  datatype Row = Row(site: string, domain: string, description: string)

  /** One record of the table: column name to cell text. */
  type Record = map<string, string>

  /** The table as the CSV reader delivers it: its column list and its records in file order. */
  datatype Table = Table(columns: seq<string>, records: seq<Record>)

  /** The error `load_sites_data` raises, carrying the list it reports. */
  datatype SchemaError = MissingRequiredColumns(missing: seq<string>)

  /** The columns a sites table must have, in the order they are checked and reported. */
  const RequiredColumns: seq<string> := ["site", "domain", "description"]

  /** The elements of `wanted` that do not occur in `present`, in the order of `wanted`. */
  function Absent(wanted: seq<string>, present: seq<string>): (m: seq<string>)
    ensures |m| <= |wanted|
    ensures forall c :: c in m <==> c in wanted && c !in present
  {
    if wanted == [] then []
    else (if wanted[0] in present then [] else [wanted[0]]) + Absent(wanted[1..], present)
  }

  /**
   * The required columns missing from `columns`: each of site, domain and description
   * that the column list lacks, in that order.
   */
  function MissingColumns(columns: seq<string>): (m: seq<string>)
    ensures m == (if "site" in columns then [] else ["site"])
              + (if "domain" in columns then [] else ["domain"])
              + (if "description" in columns then [] else ["description"])
    ensures m == [] <==> forall c :: c in RequiredColumns ==> c in columns
  {
    assert Absent(["description"], columns) == (if "description" in columns then [] else ["description"]) by {
      assert ["description"][1..] == [];
    }
    assert Absent(["domain", "description"], columns)
        == (if "domain" in columns then [] else ["domain"]) + Absent(["description"], columns) by {
      assert ["domain", "description"][1..] == ["description"];
    }
    assert RequiredColumns[1..] == ["domain", "description"];
    Absent(RequiredColumns, columns)
  }

  /**
   * The schema check of the loader: the table is returned unchanged when it has all
   * three required columns; otherwise the load fails naming the missing ones.
   */
  function LoadSitesData(t: Table): (r: Result<Table, SchemaError>)
    ensures r.Failure? <==> !("site" in t.columns && "domain" in t.columns && "description" in t.columns)
    ensures r.Success? ==> r.value == t
    ensures r.Failure? ==> r.error.missing != [] && r.error == MissingRequiredColumns(MissingColumns(t.columns))
  {
    var missing := MissingColumns(t.columns);
    if missing != [] then Failure(MissingRequiredColumns(missing)) else Success(t)
  }

  /** Every record has exactly the table's columns, as a data frame guarantees. */
  ghost predicate Rectangular(t: Table)
  {
    forall i :: 0 <= i < |t.records| ==> t.records[i].Keys == set c | c in t.columns
  }

  /** Every record has the three cells the agent reads. */
  predicate HasSiteCells(records: seq<Record>)
  {
    forall i :: 0 <= i < |records| ==>
      "site" in records[i] && "domain" in records[i] && "description" in records[i]
  }

  /** The site rows of a table, in record order (what `iterrows` yields, reduced to the three cells). */
  function SiteRows(records: seq<Record>): (rows: seq<Row>)
    requires HasSiteCells(records)
    ensures |rows| == |records|
    ensures forall i :: 0 <= i < |rows| ==>
      rows[i] == Row(records[i]["site"], records[i]["domain"], records[i]["description"])
  {
    if records == [] then []
    else
      var r := records[0];
      [Row(r["site"], r["domain"], r["description"])] + SiteRows(records[1..])
  }

  /** A rectangular table that passes the schema check has all the cells the agent reads. */
  lemma LoadedTableHasSiteCells(t: Table)
    requires Rectangular(t)
    requires LoadSitesData(t).Success?
    ensures HasSiteCells(LoadSitesData(t).value.records)
  {
    forall i | 0 <= i < |t.records|
      ensures "site" in t.records[i] && "domain" in t.records[i] && "description" in t.records[i]
    {
      assert t.records[i].Keys == set c | c in t.columns;
    }
  }
}
