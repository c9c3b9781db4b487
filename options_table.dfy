/**
 * The normaliser: turns the raw options-chain document into a column-major
 * table of contracts whose numeric columns hold numbers or nothing.
 */
module OptionsTable {
  import opened Wrappers

  /** One leaf value of a contract record: null, a number or a string. */
  datatype Cell = Null | Num(x: real) | Text(s: string)

  /** One contract record as delivered by the acquisition stage: field name to value. */
  type RawRecord = map<string, Cell>

  /** The value stored under a top-level key of the raw document. */
  datatype TopValue = Records(records: seq<RawRecord>) | Scalar(cell: Cell)

  /** The raw document: top-level key to value; the contracts live under "data". */
  type RawDocument = map<string, TopValue>

  datatype ParseError =
    | InvalidFormat  // no document, an empty one, or one without a "data" key
    | NoOptions      // "data" is present but empty or null
    | NotRecords     // "data" is a non-empty scalar, which the table constructor refuses

  /** A table of `height` rows kept column by column, as a data frame keeps it. */
  datatype Table = Table(height: nat, columns: map<string, seq<Cell>>)

  /** The twelve fields that are coerced to numbers, in the order they are visited. */
  const NumericColumns: seq<string> :=
    ["strike", "bid", "ask", "last", "volume", "open_interest",
     "delta", "gamma", "theta", "vega", "rho", "implied_volatility"]

  /** Python truthiness of the "data" value: an empty list, null, 0 and "" are false. */
  predicate Truthy(v: TopValue) {
    match v
    case Records(rs) => |rs| > 0
    case Scalar(c) =>
      match c
      case Null => false
      case Num(x) => x != 0.0
      case Text(s) => |s| > 0
  }

  /** The value of field `c` in a record; a missing field reads as null. */
  function CellOf(rec: RawRecord, c: string): Cell {
    if c in rec then rec[c] else Null
  }

  /** Every field name that occurs in at least one record. */
  function ColumnsOf(recs: seq<RawRecord>): (cols: set<string>)
    ensures forall i, c :: 0 <= i < |recs| && c in recs[i] ==> c in cols
    ensures forall c :: c in cols ==> exists i :: 0 <= i < |recs| && c in recs[i]
  {
    if recs == [] then {}
    else ColumnsOf(recs[..|recs| - 1]) + recs[|recs| - 1].Keys
  }

  /** The table built from a list of records: one row per record, one column per field name. */
  function FromRecords(recs: seq<RawRecord>): (t: Table)
    ensures t.height == |recs| && t.columns.Keys == ColumnsOf(recs)
    ensures forall c :: c in t.columns ==> |t.columns[c]| == |recs|
    ensures forall c, i :: c in t.columns && 0 <= i < |recs| ==> t.columns[c][i] == CellOf(recs[i], c)
  {
    Table(|recs|, map c | c in ColumnsOf(recs) :: seq(|recs|, i requires 0 <= i < |recs| => CellOf(recs[i], c)))
  }

  /**
   * Coercion of one value to a number with errors turned into absence:
   * the result is never text, numbers and nulls are kept, and a string
   * becomes the number `parse` reads from it, or null when it reads none.
   */
  function Coerce(cell: Cell, parse: string -> Option<real>): (r: Cell)
    ensures !r.Text?
    ensures !cell.Text? ==> r == cell
    ensures cell.Text? ==> (r.Null? <==> parse(cell.s).None?)
    ensures cell.Text? && r.Num? ==> parse(cell.s) == Some(r.x)
  {
    match cell
    case Text(s) => (match parse(s) case Some(x) => Num(x) case None => Null)
    case _ => cell
  }

  function CoerceColumn(cells: seq<Cell>, parse: string -> Option<real>): (r: seq<Cell>)
    ensures |r| == |cells|
    ensures forall i :: 0 <= i < |cells| ==> r[i] == Coerce(cells[i], parse)
  {
    seq(|cells|, i requires 0 <= i < |cells| => Coerce(cells[i], parse))
  }

  /** Coercing a column twice is coercing it once. */
  lemma CoerceColumnTwice(cells: seq<Cell>, parse: string -> Option<real>)
    ensures CoerceColumn(CoerceColumn(cells, parse), parse) == CoerceColumn(cells, parse)
  {
    var once := CoerceColumn(cells, parse);
    assert forall i :: 0 <= i < |cells| ==> CoerceColumn(once, parse)[i] == once[i];
  }

  /** No numeric column of the table holds text. */
  ghost predicate Coerced(t: Table) {
    forall c, i :: c in t.columns && c in NumericColumns && 0 <= i < |t.columns[c]| ==> !t.columns[c][i].Text?
  }

  /**
   * `t` is the normalised form of `recs`: same number of rows in the same
   * order, one column per field name seen, each numeric cell coerced and
   * every other cell passed through.
   */
  ghost predicate NormalizedFrom(t: Table, recs: seq<RawRecord>, parse: string -> Option<real>) {
    && t.height == |recs|
    && t.columns.Keys == ColumnsOf(recs)
    && (forall c :: c in t.columns ==> |t.columns[c]| == |recs|)
    && (forall c, i :: c in t.columns && 0 <= i < |recs| ==>
          t.columns[c][i] == if c in NumericColumns then Coerce(CellOf(recs[i], c), parse) else CellOf(recs[i], c))
  }

  /** The loop of parse_options_data: each numeric column that exists is overwritten by its coerced form. */
  method CoerceNumericColumns(t0: Table, parse: string -> Option<real>) returns (t: Table)
    ensures t.height == t0.height && t.columns.Keys == t0.columns.Keys
    ensures forall c :: c in t.columns ==>
              t.columns[c] == if c in NumericColumns then CoerceColumn(t0.columns[c], parse) else t0.columns[c]
  {
    t := t0;
    for j := 0 to |NumericColumns|
      invariant t.height == t0.height && t.columns.Keys == t0.columns.Keys
      invariant forall c :: c in t.columns ==>
                  t.columns[c] == if c in NumericColumns[..j] then CoerceColumn(t0.columns[c], parse) else t0.columns[c]
    {
      var col := NumericColumns[j];
      if col in t.columns {
        CoerceColumnTwice(t0.columns[col], parse);
        t := t.(columns := t.columns[col := CoerceColumn(t.columns[col], parse)]);
      }
      assert NumericColumns[..j + 1] == NumericColumns[..j] + [col];
    }
    assert NumericColumns[..|NumericColumns|] == NumericColumns;
  }

  /**
   * parse_options_data: refuses a missing or empty document, a document
   * without "data" and an empty "data"; otherwise builds the table and
   * overwrites each numeric column that exists with its coerced form.
   */
  method ParseOptionsData(raw: Option<RawDocument>, parse: string -> Option<real>) returns (r: Result<Table, ParseError>)
    ensures r == Failure(InvalidFormat) <==> raw.None? || "data" !in raw.value
    ensures r == Failure(NoOptions) <==> raw.Some? && "data" in raw.value && !Truthy(raw.value["data"])
    ensures r == Failure(NotRecords) <==>
              raw.Some? && "data" in raw.value && Truthy(raw.value["data"]) && raw.value["data"].Scalar?
    ensures r.Success? ==>
              && raw.Some? && "data" in raw.value && raw.value["data"].Records?
              && |raw.value["data"].records| > 0
              && NormalizedFrom(r.value, raw.value["data"].records, parse)
              && Coerced(r.value)
  {
    if raw.None? || "data" !in raw.value {
      return Failure(InvalidFormat);
    }
    var data := raw.value["data"];
    if !Truthy(data) {
      return Failure(NoOptions);
    }
    if data.Scalar? {
      return Failure(NotRecords);
    }
    var t := CoerceNumericColumns(FromRecords(data.records), parse);
    return Success(t);
  }
}
