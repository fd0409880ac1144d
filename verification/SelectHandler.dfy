// The SELECT pipeline over the rows of one table: filter, order, limit, project.
module SelectHandler {
  import opened Common
  import opened Values
  import opened ExprEval
  import opened StableOrder

  /** One item of a select list: `*`, or an expression with an alias, empty when there is none. */
  datatype Field = WildCard | Item(expr: Expr, asName: string)

  datatype OrderItem = OrderItem(expr: Expr, desc: bool)

  datatype Limit = Limit(offset: Option<Expr>, count: Option<Expr>)

  datatype Select = Select(
    fields: seq<Field>,
    where: Option<Expr>,
    orderBy: Option<seq<OrderItem>>,
    limit: Option<Limit>)

  datatype ColumnDef = ColumnDef(name: string, kind: string)

  datatype Table = Table(columns: seq<ColumnDef>, rows: seq<Row>)

  function NamesOf(columns: seq<ColumnDef>): (names: seq<string>)
    ensures |names| == |columns|
    ensures forall k :: 0 <= k < |columns| ==> names[k] == columns[k].name
  {
    seq(|columns|, k requires 0 <= k < |columns| => columns[k].name)
  }

  method ColumnNames(columns: seq<ColumnDef>) returns (out: seq<string>)
    ensures out == NamesOf(columns)
  {
    out := [];
    for i := 0 to |columns|
      invariant |out| == i
      invariant forall k :: 0 <= k < i ==> out[k] == columns[k].name
    {
      out := out + [columns[i].name];
    }
  }

  // ---------- WHERE ----------

  function Keeps(host: Host, columns: seq<string>, where: Expr): Row -> bool {
    row => TriOf(Eval(host, Context(columns, row), where)) == True
  }

  function Filtered(host: Host, columns: seq<string>, rows: seq<Row>, where: Option<Expr>): seq<Row> {
    if where.None? then rows else Filter(Keeps(host, columns, where.value), rows)
  }

  method FilterRows(host: Host, columns: seq<string>, rows: seq<Row>, where: Option<Expr>) returns (out: seq<Row>)
    ensures out == Filtered(host, columns, rows, where)
  {
    if where.None? {
      return rows;
    }
    out := [];
    for i := 0 to |rows|
      invariant out == Filter(Keeps(host, columns, where.value), rows[..i])
    {
      var v := Eval(host, Context(columns, rows[i]), where.value);
      FilterStep(Keeps(host, columns, where.value), rows, i);
      if TriOf(v) == True {
        out := out + [rows[i]];
      }
    }
    assert rows[..|rows|] == rows;
  }

  // ---------- ORDER BY ----------

  /** The name of the plain column at position `n` of the select list, or "". */
  function NthSelectColumn(fields: seq<Field>, n: int): string {
    if n < 1 || n > |fields| then ""
    else
      match fields[n - 1]
      case Item(Column(name), _) => name
      case _ => ""
  }

  /** The expression an ORDER BY item sorts by; None when its position resolves to no column. */
  function KeyOf(fields: seq<Field>, e: Expr): Option<Expr> {
    match e
    case Position(n) =>
      var col := NthSelectColumn(fields, n);
      if col != "" then Some(Column(col)) else None
    case _ => Some(e)
  }

  /** Three-way comparison of two rows under one key. */
  function CompareByKey(host: Host, columns: seq<string>, key: Expr, a: Row, b: Row): int {
    CompareValues(host, Eval(host, Context(columns, a), key), Eval(host, Context(columns, b), key))
  }

  /** The comparator of the sort: the first key that tells the rows apart decides. */
  predicate RowLess(host: Host, fields: seq<Field>, columns: seq<string>, items: seq<OrderItem>, a: Row, b: Row) {
    if items == [] then
      false
    else
      match KeyOf(fields, items[0].expr)
      case None => RowLess(host, fields, columns, items[1..], a, b)
      case Some(key) =>
        var cmp := CompareByKey(host, columns, key, a, b);
        if cmp == 0 then RowLess(host, fields, columns, items[1..], a, b)
        else if items[0].desc then cmp > 0
        else cmp < 0
  }

  function RowOrder(host: Host, fields: seq<Field>, columns: seq<string>, items: seq<OrderItem>): (Row, Row) -> bool {
    (a, b) => RowLess(host, fields, columns, items, a, b)
  }

  function Ordered(host: Host, sel: Select, columns: seq<string>, rows: seq<Row>): seq<Row> {
    if sel.orderBy.None? then rows
    else StableSort(RowOrder(host, sel.fields, columns, sel.orderBy.value), rows)
  }

  /** Sorts the row slice in place. */
  method OrderRows(host: Host, sel: Select, columns: seq<string>, rows: array<Row>)
    modifies rows
    ensures rows[..] == Ordered(host, sel, columns, old(rows[..]))
  {
    if sel.orderBy.Some? {
      InsertionSort(RowOrder(host, sel.fields, columns, sel.orderBy.value), rows);
    }
  }

  // ---------- LIMIT ----------

  /** Conversion to a 64-bit signed integer, wrapping around. */
  function ToInt(n: int): (r: int)
    requires -TWO_63 <= n < TWO_64
    ensures -TWO_63 <= r < TWO_63
  {
    if n < TWO_63 then n else n - TWO_64
  }

  function LiteralInt(e: Expr): (r: Option<int>)
    ensures r.Some? ==> -TWO_63 <= r.value < TWO_63
  {
    match e
    case Literal(SignedInt(i)) => Some(ToInt(i))
    case Literal(UnsignedInt(u)) => Some(ToInt(u))
    case _ => None
  }

  function ApplyLimit(rows: seq<Row>, lim: Option<Limit>): seq<Row> {
    if lim.None? then
      rows
    else
      var off := if lim.value.offset.Some? then LiteralInt(lim.value.offset.value) else None;
      var offset := if off.Some? && off.value > 0 then off.value else 0;
      if offset >= |rows| then
        []
      else
        var rest := rows[offset..];
        var cnt := if lim.value.count.Some? then LiteralInt(lim.value.count.value) else None;
        if cnt.Some? && 0 <= cnt.value < |rest| then rest[..cnt.value] else rest
  }

  // ---------- Select list ----------

  /** A resolved output column: a cell index, or an expression, or neither (always NULL). */
  datatype Proj = Proj(col: string, idx: Option<nat>, expr: Option<Expr>)

  function WildCardProjs(columns: seq<string>): seq<Proj> {
    seq(|columns|, i requires 0 <= i < |columns| => Proj(columns[i], Some(i), None))
  }

  function ProjsOf(host: Host, columns: seq<string>, f: Field): seq<Proj> {
    match f
    case WildCard => WildCardProjs(columns)
    case Item(expr, asName) =>
      if asName != "" then
        [if expr.Column? then Proj(asName, FirstIndex(host, columns, asName), None) else Proj(asName, None, Some(expr))]
      else
        match expr
        case Column(name) => [Proj(name, FirstIndex(host, columns, host.lower(name)), None)]
        case _ => [Proj("?column?", None, Some(expr))]
  }

  function Projections(host: Host, columns: seq<string>, fields: seq<Field>): seq<Proj> {
    if fields == [] then []
    else Projections(host, columns, fields[..|fields| - 1]) + ProjsOf(host, columns, fields[|fields| - 1])
  }

  /** Bools become 0 and 1 for the wire; truth survives, and nothing else changes. */
  function NormalizeValue(v: Value): (r: Value)
    ensures TriOf(r) == TriOf(v) && !r.Bool? && (!v.Bool? ==> r == v)
    ensures v.Bool? ==> r.SignedInt?
  {
    match v
    case Bool(b) => SignedInt(if b then 1 else 0)
    case _ => v
  }

  /** The output column names. */
  function Titles(projs: seq<Proj>): (names: seq<string>)
    ensures |names| == |projs| && forall k :: 0 <= k < |projs| ==> names[k] == projs[k].col
  {
    seq(|projs|, k requires 0 <= k < |projs| => projs[k].col)
  }

  function OutCell(host: Host, columns: seq<string>, p: Proj, row: Row): Value {
    if p.idx.Some? then NormalizeValue(Cell(row, p.idx.value))
    else if p.expr.Some? then NormalizeValue(Eval(host, Context(columns, row), p.expr.value))
    else Null
  }

  function OutRow(host: Host, columns: seq<string>, projs: seq<Proj>, row: Row): (out: Row)
    ensures |out| == |projs|
  {
    seq(|projs|, k requires 0 <= k < |projs| => OutCell(host, columns, projs[k], row))
  }

  function Projected(host: Host, columns: seq<string>, projs: seq<Proj>, rows: seq<Row>): (out: seq<Row>)
    ensures |out| == |rows|
    ensures forall k :: 0 <= k < |rows| ==> out[k] == OutRow(host, columns, projs, rows[k])
  {
    seq(|rows|, k requires 0 <= k < |rows| => OutRow(host, columns, projs, rows[k]))
  }

  method ColumnIndex(host: Host, columns: seq<string>, name: string) returns (idx: int, found: bool)
    ensures found <==> FirstIndex(host, columns, name).Some?
    ensures idx == if found then FirstIndex(host, columns, name).value else -1
  {
    var n := host.lower(name);
    for i := 0 to |columns|
      invariant forall k :: 0 <= k < i ==> !Names(host, columns[k], name)
    {
      if |columns[i]| == |n| && host.lower(columns[i]) == n {
        assert Names(host, columns[i], name);
        return i, true;
      }
    }
    return -1, false;
  }

  method ResolveFields(host: Host, columns: seq<string>, fields: seq<Field>) returns (projs: seq<Proj>)
    ensures projs == Projections(host, columns, fields)
  {
    projs := [];
    for f := 0 to |fields|
      invariant projs == Projections(host, columns, fields[..f])
    {
      assert fields[..f + 1][..f] == fields[..f];
      match fields[f] {
        case WildCard =>
          ghost var before := projs;
          for i := 0 to |columns|
            invariant projs == before + WildCardProjs(columns)[..i]
          {
            projs := projs + [Proj(columns[i], Some(i), None)];
          }
        case Item(expr, asName) =>
          if asName != "" {
            var idx, found := ColumnIndex(host, columns, asName);
            if expr.Column? {
              projs := projs + [Proj(asName, if found then Some(idx) else None, None)];
            } else {
              projs := projs + [Proj(asName, None, Some(expr))];
            }
          } else if expr.Column? {
            var idx, found := ColumnIndex(host, columns, host.lower(expr.name));
            projs := projs + [Proj(expr.name, if found then Some(idx) else None, None)];
          } else {
            projs := projs + [Proj("?column?", None, Some(expr))];
          }
      }
    }
    assert fields[..|fields|] == fields;
  }

  method ProjectRows(host: Host, sel: Select, columns: seq<string>, rows: seq<Row>)
    returns (outCols: seq<string>, outRows: seq<Row>)
    ensures var projs := Projections(host, columns, sel.fields);
            outRows == Projected(host, columns, projs, rows) && outCols == Titles(projs)
  {
    var projs := ResolveFields(host, columns, sel.fields);
    outCols := [];
    for i := 0 to |projs|
      invariant |outCols| == i && forall k :: 0 <= k < i ==> outCols[k] == projs[k].col
    {
      outCols := outCols + [projs[i].col];
    }
    outRows := [];
    for ri := 0 to |rows|
      invariant |outRows| == ri
      invariant forall k :: 0 <= k < ri ==> outRows[k] == OutRow(host, columns, projs, rows[k])
    {
      var out: Row := [];
      for pi := 0 to |projs|
        invariant |out| == pi
        invariant forall k :: 0 <= k < pi ==> out[k] == OutCell(host, columns, projs[k], rows[ri])
      {
        out := out + [OutCell(host, columns, projs[pi], rows[ri])];
      }
      assert out == OutRow(host, columns, projs, rows[ri]);
      outRows := outRows + [out];
    }
  }

  // ---------- The pipeline ----------

  /** Filtered and ordered rows, before LIMIT. */
  function Arranged(host: Host, sel: Select, t: Table): seq<Row> {
    var columns := NamesOf(t.columns);
    Ordered(host, sel, columns, Filtered(host, columns, t.rows, sel.where))
  }

  function SelectedRows(host: Host, sel: Select, t: Table): seq<Row> {
    var columns := NamesOf(t.columns);
    Projected(host, columns, Projections(host, columns, sel.fields), ApplyLimit(Arranged(host, sel, t), sel.limit))
  }

  function SelectedTitles(host: Host, sel: Select, t: Table): seq<string> {
    Titles(Projections(host, NamesOf(t.columns), sel.fields))
  }

  method RunSelect(host: Host, sel: Select, t: Table) returns (outCols: seq<string>, outRows: seq<Row>)
    ensures outCols == SelectedTitles(host, sel, t) && outRows == SelectedRows(host, sel, t)
  {
    var columns := ColumnNames(t.columns);
    var kept := FilterRows(host, columns, t.rows, sel.where);
    var rows := new Row[|kept|](i requires 0 <= i < |kept| => kept[i]);
    assert rows[..] == kept;
    OrderRows(host, sel, columns, rows);
    var page := ApplyLimit(rows[..], sel.limit);
    outCols, outRows := ProjectRows(host, sel, columns, page);
  }
}
