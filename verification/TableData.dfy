// Table data as the store holds it: encoded as JSON by the seeder, decoded by every query.
module TableData {
  import opened Common
  import opened Values
  import opened SelectHandler

  /** A JSON cell: numbers have one kind, whatever they were before. `JOther` is an array,
      an object, or what became of a date. */
  datatype Json = JNull | JBool(b: bool) | JNumber(r: real) | JString(s: string) | JOther(text: string)

  /** The text stored for a table; `Malformed` is any text that is no encoded table. */
  datatype Payload = TableJson(columns: seq<ColumnDef>, rows: seq<seq<Json>>) | Malformed

  /** JSON has no NaN and no infinities. */
  function EncodeCell(host: Host, v: Value): Option<Json> {
    match v
    case Null => Some(JNull)
    case Bool(b) => Some(JBool(b))
    case SignedInt(i) => Some(JNumber(i as real))
    case UnsignedInt(u) => Some(JNumber(u as real))
    case Float(f) => if f.Finite? then Some(JNumber(f.r)) else None
    case Text(s) => Some(JString(host.utf8(s)))
    case _ => (match host.foreign(v) case Some(text) => Some(JOther(text)) case None => None)
  }

  /** Every number comes back as a float. */
  function DecodeCell(host: Host, j: Json): Value {
    match j
    case JNull => Null
    case JBool(b) => Bool(b)
    case JNumber(r) => Float(Finite(r))
    case JString(s) => Text(s)
    case JOther(text) => host.reread(text)
  }

  predicate RowEncodable(host: Host, row: Row) {
    forall k :: 0 <= k < |row| ==> EncodeCell(host, row[k]).Some?
  }

  function EncodeRow(host: Host, row: Row): (r: seq<Json>)
    requires RowEncodable(host, row)
    ensures |r| == |row|
  {
    seq(|row|, k requires 0 <= k < |row| => EncodeCell(host, row[k]).value)
  }

  function DecodeRow(host: Host, row: seq<Json>): (r: Row)
    ensures |r| == |row|
  {
    seq(|row|, k requires 0 <= k < |row| => DecodeCell(host, row[k]))
  }

  function EncodeColumns(host: Host, columns: seq<ColumnDef>): seq<ColumnDef> {
    seq(|columns|, k requires 0 <= k < |columns| => ColumnDef(host.utf8(columns[k].name), host.utf8(columns[k].kind)))
  }

  /** What the seeder stores for a table: nothing without columns. */
  function EncodeTable(host: Host, t: Table): Option<Payload> {
    if t.columns != [] && forall i :: 0 <= i < |t.rows| ==> RowEncodable(host, t.rows[i]) then
      Some(TableJson(
        EncodeColumns(host, t.columns),
        seq(|t.rows|, i requires 0 <= i < |t.rows| => EncodeRow(host, t.rows[i]))))
    else
      None
  }

  function DecodeTable(host: Host, p: Payload): Option<Table> {
    match p
    case TableJson(columns, rows) =>
      Some(Table(columns, seq(|rows|, i requires 0 <= i < |rows| => DecodeRow(host, rows[i]))))
    case Malformed => None
  }

  /** A cell as queries find it. */
  function StoredCell(host: Host, v: Value): Value {
    match EncodeCell(host, v)
    case Some(j) => DecodeCell(host, j)
    case None => Null
  }

  /** A table as queries find it. */
  function StoredTable(host: Host, t: Table): Table {
    Table(
      EncodeColumns(host, t.columns),
      seq(|t.rows|, i requires 0 <= i < |t.rows| =>
        seq(|t.rows[i]|, k requires 0 <= k < |t.rows[i]| => StoredCell(host, t.rows[i][k]))))
  }

  /** Storing a table and loading it again works cell by cell. */
  lemma TableRoundTrip(host: Host, t: Table)
    requires EncodeTable(host, t).Some?
    ensures DecodeTable(host, EncodeTable(host, t).value) == Some(StoredTable(host, t))
  {
    var decoded, stored := DecodeTable(host, EncodeTable(host, t).value).value, StoredTable(host, t);
    forall i | 0 <= i < |t.rows|
      ensures decoded.rows[i] == stored.rows[i]
    {
      assert RowEncodable(host, t.rows[i]);
    }
    assert decoded.rows == stored.rows;
  }

  /** NULL, a boolean, a number or a text; not a date, a list or a mapping. */
  predicate Basic(v: Value) {
    !v.Bytes? && !v.Opaque?
  }

  /** A basic cell comes back as it was exactly when it is NULL, a boolean, a finite
      float or a text of valid UTF-8; integers come back as floats. */
  lemma CellSurvivesExactly(host: Host, v: Value)
    requires Basic(v)
    ensures EncodeCell(host, v).Some? && StoredCell(host, v) == v
       <==> v.Null? || v.Bool? || (v.Float? && v.f.Finite?) || (v.Text? && host.utf8(v.s) == v.s)
  {
  }

  /** Dates, lists, mappings and byte strings come back as what JSON made of them, if it could. */
  lemma ForeignCells(host: Host, v: Value)
    requires !Basic(v)
    ensures EncodeCell(host, v).Some? <==> host.foreign(v).Some?
    ensures host.foreign(v).Some? ==> StoredCell(host, v) == host.reread(host.foreign(v).value)
  {
  }

  predicate TableSurvives(host: Host, t: Table) {
    && (forall k :: 0 <= k < |t.columns| ==> host.utf8(t.columns[k].name) == t.columns[k].name)
    && (forall k :: 0 <= k < |t.columns| ==> host.utf8(t.columns[k].kind) == t.columns[k].kind)
    && forall i, k :: 0 <= i < |t.rows| && 0 <= k < |t.rows[i]| ==> StoredCell(host, t.rows[i][k]) == t.rows[i][k]
  }

  lemma TableSurvivesExactly(host: Host, t: Table)
    ensures StoredTable(host, t) == t <==> TableSurvives(host, t)
  {
    var stored := StoredTable(host, t);
    if TableSurvives(host, t) {
      assert stored.columns == t.columns;
      assert forall i :: 0 <= i < |t.rows| ==> stored.rows[i] == t.rows[i];
      assert stored.rows == t.rows;
    }
    if stored == t {
      assert forall k :: 0 <= k < |t.columns| ==> stored.columns[k] == t.columns[k];
      assert forall i :: 0 <= i < |t.rows| ==> stored.rows[i] == t.rows[i];
    }
  }

  predicate PrintsAlike(host: Host, v: Value) {
    SortText(host, StoredCell(host, v)) == SortText(host, v)
  }

  lemma CompareUnfold(host: Host, a: Value, b: Value)
    requires a != Null && b != Null
    ensures CompareValues(host, a, b)
         == if IsNumber(host, a) && IsNumber(host, b) then
              CompareNumbers(ToNumber(host, a).value, ToNumber(host, b).value)
            else CompareText(SortText(host, a), SortText(host, b))
  {
  }

  lemma StorageKeepsNumber(host: Host, v: Value)
    requires Basic(v) && EncodeCell(host, v).Some? && (v.Text? ==> host.utf8(v.s) == v.s)
    ensures StoredCell(host, v) == Null <==> v == Null
    ensures TriOf(StoredCell(host, v)) == TriOf(v) && ToNumber(host, StoredCell(host, v)) == ToNumber(host, v)
  {
  }

  /** Storing a basic cell keeps whether it is NULL, its truth and its number. Two of them
      then compare as they did, if both are numbers or both still print the same. */
  lemma StorageKeepsMeaning(host: Host, a: Value, b: Value)
    requires Basic(a) && EncodeCell(host, a).Some? && (a.Text? ==> host.utf8(a.s) == a.s)
    requires Basic(b) && EncodeCell(host, b).Some? && (b.Text? ==> host.utf8(b.s) == b.s)
    ensures StoredCell(host, a) == Null <==> a == Null
    ensures TriOf(StoredCell(host, a)) == TriOf(a) && ToNumber(host, StoredCell(host, a)) == ToNumber(host, a)
    ensures (IsNumber(host, a) && IsNumber(host, b)) || (PrintsAlike(host, a) && PrintsAlike(host, b)) ==>
      CompareValues(host, StoredCell(host, a), StoredCell(host, b)) == CompareValues(host, a, b)
  {
    StorageKeepsNumber(host, a);
    StorageKeepsNumber(host, b);
    hide StoredCell, EncodeCell, ToNumber, TriOf, CompareNumbers, CompareText, SortText;
    if a != Null && b != Null {
      CompareUnfold(host, a, b);
      CompareUnfold(host, StoredCell(host, a), StoredCell(host, b));
    }
  }
}
