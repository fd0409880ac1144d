// Which rows a whole SELECT statement returns, how often, and in which order, said of its
// result and the stored rows alone.
module SelectResults {
  import opened Common
  import opened Values
  import opened ExprEval
  import opened StableOrder
  import opened SelectHandler
  import opened SelectTheorems

  /** The condition of the statement is true on the row, or there is none. */
  predicate Satisfies(host: Host, sel: Select, t: Table, row: Row) {
    sel.where.None? || TriOf(Eval(host, Context(NamesOf(t.columns), row), sel.where.value)) == True
  }

  function Satisfying(host: Host, sel: Select, t: Table): Row -> bool {
    row => Satisfies(host, sel, t, row)
  }

  /** What the select list makes of a row. */
  function Shown(host: Host, sel: Select, t: Table, row: Row): Row {
    OutRow(host, NamesOf(t.columns), Projections(host, NamesOf(t.columns), sel.fields), row)
  }

  function ShownAll(host: Host, sel: Select, t: Table, rows: seq<Row>): (out: seq<Row>)
    ensures |out| == |rows| && forall k :: 0 <= k < |rows| ==> out[k] == Shown(host, sel, t, rows[k])
  {
    seq(|rows|, k requires 0 <= k < |rows| => Shown(host, sel, t, rows[k]))
  }

  // ---------- Which rows ----------

  lemma FilterIsSatisfying(host: Host, sel: Select, t: Table)
    ensures Filtered(host, NamesOf(t.columns), t.rows, sel.where) == Filter(Satisfying(host, sel, t), t.rows)
  {
    hide Eval, NamesOf;
    if sel.where.None? {
      AllKept(Satisfying(host, sel, t), t.rows);
    } else {
      FilterAgree(Keeps(host, NamesOf(t.columns), sel.where.value), Satisfying(host, sel, t), t.rows);
    }
  }

  /** Without LIMIT a statement shows the rows it is satisfied by, rearranged by ORDER BY at
      the most. */
  lemma RowsShown(host: Host, sel: Select, t: Table) returns (rows: seq<Row>)
    ensures rows == Ordered(host, sel, NamesOf(t.columns), Filter(Satisfying(host, sel, t), t.rows))
    ensures SelectedRows(host, sel.(limit := None), t) == ShownAll(host, sel, t, rows)
    ensures multiset(rows) == multiset(Filter(Satisfying(host, sel, t), t.rows))
  {
    hide Eval, NamesOf, Projections, OutRow, StableSort;
    FilterIsSatisfying(host, sel, t);
    var columns, kept := NamesOf(t.columns), Filter(Satisfying(host, sel, t), t.rows);
    rows := Ordered(host, sel, columns, kept);
    if sel.orderBy.Some? {
      SortPermutes(RowOrder(host, sel.fields, columns, sel.orderBy.value), kept);
    }
    var bare := sel.(limit := None);
    assert Arranged(host, bare, t) == rows;
    assert SelectedRows(host, bare, t) == ShownAll(host, sel, t, rows);
  }

  /** Every row shown, LIMIT or not, is what the select list makes of a stored row on which
      the condition is true. */
  lemma EveryShownRowSatisfies(host: Host, sel: Select, t: Table, i: nat) returns (row: Row)
    requires i < |SelectedRows(host, sel, t)|
    ensures row in t.rows && Satisfies(host, sel, t, row)
    ensures SelectedRows(host, sel, t)[i] == Shown(host, sel, t, row)
  {
    hide Eval, NamesOf, Projections, OutRow, Ordered, Filtered;
    var rows := RowsShown(host, sel, t);
    FilterIsSatisfying(host, sel, t);
    var lo, hi := LimitIsContiguous(Arranged(host, sel, t), sel.limit);
    row := Arranged(host, sel, t)[lo + i];
    SameElements(rows, Filter(Satisfying(host, sel, t), t.rows));
    assert Arranged(host, sel, t) == rows;
    assert row in rows;
  }

  /** The rows of which the select list makes `out`. */
  function Making(host: Host, sel: Select, t: Table, out: Row): Row -> bool {
    row => Shown(host, sel, t, row) == out
  }

  /** Those of them on which the condition is true. */
  function MakingIfSatisfied(host: Host, sel: Select, t: Table, out: Row): Row -> bool {
    row => Satisfies(host, sel, t, row) && Shown(host, sel, t, row) == out
  }

  lemma {:induction false} ShownCount(host: Host, sel: Select, t: Table, rows: seq<Row>, out: Row)
    ensures multiset(ShownAll(host, sel, t, rows))[out] == |Filter(Making(host, sel, t, out), rows)|
  {
    hide Shown;
    if rows != [] {
      var init, last := rows[..|rows| - 1], rows[|rows| - 1];
      ShownCount(host, sel, t, init, out);
      assert ShownAll(host, sel, t, rows) == ShownAll(host, sel, t, init) + [Shown(host, sel, t, last)];
    }
  }

  lemma FilterOfPermutation(keep: Row -> bool, a: seq<Row>, b: seq<Row>)
    requires multiset(a) == multiset(b)
    ensures |Filter(keep, a)| == |Filter(keep, b)|
  {
    var p, q := multiset(Filter(keep, a)), multiset(Filter(keep, b));
    forall x: Row
      ensures p[x] == q[x]
    {
      FilterMultiplicity(keep, a, x);
      FilterMultiplicity(keep, b, x);
    }
    assert p == q;
    SameElements(Filter(keep, a), Filter(keep, b));
  }

  lemma {:induction false} FilterTwice<T(!new)>(p: T -> bool, q: T -> bool, both: T -> bool, s: seq<T>)
    requires forall x :: both(x) <==> q(x) && p(x)
    ensures Filter(p, Filter(q, s)) == Filter(both, s)
  {
    if s != [] {
      var init, last := s[..|s| - 1], s[|s| - 1];
      FilterTwice(p, q, both, init);
      FilterConcat(p, Filter(q, init), if q(last) then [last] else []);
    }
  }

  /** Without LIMIT every result row is shown exactly as often as there are stored rows on
      which the condition is true and of which the select list makes it. */
  lemma ShownAsOftenAsStored(host: Host, sel: Select, t: Table, out: Row)
    requires sel.limit.None?
    ensures multiset(SelectedRows(host, sel, t))[out]
         == |Filter(MakingIfSatisfied(host, sel, t, out), t.rows)|
  {
    hide SelectedRows, Shown, Satisfies, Filter;
    var rows := RowsShown(host, sel, t);
    assert sel.(limit := None) == sel;
    var makes, kept := Making(host, sel, t, out), Filter(Satisfying(host, sel, t), t.rows);
    ShownCount(host, sel, t, rows, out);
    FilterOfPermutation(makes, rows, kept);
    FilterTwice(makes, Satisfying(host, sel, t), MakingIfSatisfied(host, sel, t, out), t.rows);
  }

  /** Without ORDER BY and LIMIT the rows on which the condition is true are shown in the
      order they are stored in; without WHERE too, these are all rows. */
  lemma StoredOrderIsKept(host: Host, sel: Select, t: Table)
    requires sel.orderBy.None? && sel.limit.None?
    ensures SelectedRows(host, sel, t) == ShownAll(host, sel, t, Filter(Satisfying(host, sel, t), t.rows))
    ensures sel.where.None? ==> SelectedRows(host, sel, t) == ShownAll(host, sel, t, t.rows)
  {
    hide SelectedRows, Shown, Filter;
    var rows := RowsShown(host, sel, t);
    assert sel.(limit := None) == sel;
    if sel.where.None? {
      AllKept(Satisfying(host, sel, t), t.rows);
    }
  }

  /** LIMIT shows the slice it asks for of what the statement shows without it. */
  lemma LimitSlicesTheResult(host: Host, sel: Select, t: Table, offset: Uint64, count: Uint64)
    requires offset < TWO_63 && |t.rows| < TWO_63
    ensures SelectedRows(host, sel.(limit := LimitClause(offset, count)), t)
         == Slice(SelectedRows(host, sel.(limit := None), t), offset, count)
  {
    hide Filtered, Projections, OutRow, Eval, NamesOf, StableSort;
    var bare, limited := sel.(limit := None), sel.(limit := LimitClause(offset, count));
    var rows := RowsShown(host, sel, t);
    FilterIsSatisfying(host, sel, t);
    SameElements(rows, Filter(Satisfying(host, sel, t), t.rows));
    var arranged := Arranged(host, bare, t);
    assert arranged == Arranged(host, limited, t) == rows;
    LimitIsSlice(arranged, offset, count);
  }

  // ---------- In which order ----------

  /** The value an ORDER BY item compares rows by: that of its expression, or of the plain
      column its position names in the select list. A position that names none compares
      nothing. */
  function ItemValue(host: Host, fields: seq<Field>, columns: seq<string>, item: OrderItem, row: Row): Value {
    if item.expr.Position? then
      var n := item.expr.n;
      if 1 <= n <= |fields| && fields[n - 1].Item? && fields[n - 1].expr.Column? && fields[n - 1].expr.name != "" then
        Eval(host, Context(columns, row), fields[n - 1].expr)
      else
        Null
    else
      Eval(host, Context(columns, row), item.expr)
  }

  /** The sign with which an item tells two rows apart: DESC swaps them. */
  function ItemSign(host: Host, fields: seq<Field>, columns: seq<string>, item: OrderItem, a: Row, b: Row): int {
    var x, y := ItemValue(host, fields, columns, item, a), ItemValue(host, fields, columns, item, b);
    if item.desc then CompareValues(host, y, x) else CompareValues(host, x, y)
  }

  /** The first item that tells the rows apart puts `a` before `b`. */
  ghost predicate Precedes(
    host: Host, fields: seq<Field>, columns: seq<string>, items: seq<OrderItem>, a: Row, b: Row) {
    exists k :: 0 <= k < |items| && ItemSign(host, fields, columns, items[k], a, b) < 0
             && forall j :: 0 <= j < k ==> ItemSign(host, fields, columns, items[j], a, b) == 0
  }

  ghost function ItemValues(host: Host, sel: Select, t: Table, item: OrderItem): iset<Value> {
    iset row | row in t.rows && Satisfies(host, sel, t, row) ::
      ItemValue(host, sel.fields, NamesOf(t.columns), item, row)
  }

  lemma ItemValueIsKeyValue(host: Host, fields: seq<Field>, columns: seq<string>, item: OrderItem, row: Row)
    ensures KeyOf(fields, item.expr).Some? ==>
      ItemValue(host, fields, columns, item, row) == Eval(host, Context(columns, row), KeyOf(fields, item.expr).value)
    ensures KeyOf(fields, item.expr).None? ==> ItemValue(host, fields, columns, item, row) == Null
  {
    hide Eval;
  }

  lemma DecisionIsItemSign(
    host: Host, fields: seq<Field>, columns: seq<string>, item: OrderItem, a: Row, b: Row)
    ensures Decision(host, fields, columns, item, a, b) == ItemSign(host, fields, columns, item, a, b)
  {
    ItemValueIsKeyValue(host, fields, columns, item, a);
    ItemValueIsKeyValue(host, fields, columns, item, b);
    var x, y := ItemValue(host, fields, columns, item, a), ItemValue(host, fields, columns, item, b);
    CompareAntisymmetric(host, x, y);
    hide Eval, ItemValue, KeyOf;
  }

  lemma RowLessIsPrecedes(
    host: Host, fields: seq<Field>, columns: seq<string>, items: seq<OrderItem>, a: Row, b: Row)
    ensures RowLess(host, fields, columns, items, a, b) <==> Precedes(host, fields, columns, items, a, b)
  {
    hide RowLess, Decision, ItemSign;
    RowLessIsLexicographic(host, fields, columns, items, a, b);
    forall k | 0 <= k < |items|
      ensures Decision(host, fields, columns, items[k], a, b) == ItemSign(host, fields, columns, items[k], a, b)
    {
      DecisionIsItemSign(host, fields, columns, items[k], a, b);
    }
    forall k | 0 <= k < |items| && DecidesAt(host, fields, columns, items, a, b, k)
      ensures Precedes(host, fields, columns, items, a, b)
    {
    }
    if Precedes(host, fields, columns, items, a, b) {
      var k :| && 0 <= k < |items| && ItemSign(host, fields, columns, items[k], a, b) < 0
               && forall j :: 0 <= j < k ==> ItemSign(host, fields, columns, items[j], a, b) == 0;
      assert DecidesAt(host, fields, columns, items, a, b, k);
    }
  }

  lemma ItemsOrderRows(host: Host, sel: Select, t: Table, items: seq<OrderItem>)
    requires forall k :: 0 <= k < |items| ==> Orderable(host, ItemValues(host, sel, t, items[k]))
    ensures StrictWeakOn(RowOrder(host, sel.fields, NamesOf(t.columns), items),
                         Filter(Satisfying(host, sel, t), t.rows))
  {
    hide Eval, NamesOf, Orderable, Satisfies, ItemValue, RowOrder;
    var columns, rows := NamesOf(t.columns), Filter(Satisfying(host, sel, t), t.rows);
    forall k | 0 <= k < |items| && KeyOf(sel.fields, items[k].expr).Some?
      ensures Orderable(host, KeyValues(host, columns, KeyOf(sel.fields, items[k].expr).value, rows))
    {
      forall row
        ensures ItemValue(host, sel.fields, columns, items[k], row)
             == Eval(host, Context(columns, row), KeyOf(sel.fields, items[k].expr).value)
      {
        ItemValueIsKeyValue(host, sel.fields, columns, items[k], row);
      }
      assert KeyValues(host, columns, KeyOf(sel.fields, items[k].expr).value, rows)
          == ItemValues(host, sel, t, items[k]);
    }
    RowOrderIsStrictWeak(host, sel.fields, columns, items, rows);
  }

  /** No item tells the rows apart either way. */
  ghost predicate Together(host: Host, sel: Select, t: Table, items: seq<OrderItem>, a: Row, b: Row) {
    && !Precedes(host, sel.fields, NamesOf(t.columns), items, a, b)
    && !Precedes(host, sel.fields, NamesOf(t.columns), items, b, a)
  }

  ghost function TogetherWith(host: Host, sel: Select, t: Table, items: seq<OrderItem>, x: Row): Row -> bool {
    y => Together(host, sel, t, items, x, y)
  }

  /** Without LIMIT, ORDER BY shows exactly the rows on which the condition is true, none
      after one it precedes by the items, and rows the items do not tell apart in the order
      they are stored in; provided the values the items compare are orderable. */
  lemma OrderBySorts(host: Host, sel: Select, t: Table, items: seq<OrderItem>) returns (rows: seq<Row>)
    requires sel.limit.None? && sel.orderBy == Some(items)
    requires forall k :: 0 <= k < |items| ==> Orderable(host, ItemValues(host, sel, t, items[k]))
    ensures SelectedRows(host, sel, t) == ShownAll(host, sel, t, rows)
    ensures multiset(rows) == multiset(Filter(Satisfying(host, sel, t), t.rows))
    ensures forall i, j :: 0 <= i < j < |rows| ==>
      !Precedes(host, sel.fields, NamesOf(t.columns), items, rows[j], rows[i])
    ensures forall x :: x in rows ==>
      Filter(TogetherWith(host, sel, t, items, x), rows)
      == Filter(TogetherWith(host, sel, t, items, x), Filter(Satisfying(host, sel, t), t.rows))
  {
    hide SelectedRows, Shown, Filter, Satisfies, Precedes, ItemValues, NamesOf, RowLess;
    rows := RowsShown(host, sel, t);
    assert sel.(limit := None) == sel;
    var columns, kept := NamesOf(t.columns), Filter(Satisfying(host, sel, t), t.rows);
    var less := RowOrder(host, sel.fields, columns, items);
    ItemsOrderRows(host, sel, t, items);
    OrderByIsTheStableArrangement(host, sel, columns, kept);
    forall a, b
      ensures less(a, b) <==> Precedes(host, sel.fields, columns, items, a, b)
    {
      RowLessIsPrecedes(host, sel.fields, columns, items, a, b);
    }
    SameElements(rows, kept);
    forall x | x in rows
      ensures Filter(TogetherWith(host, sel, t, items, x), rows)
           == Filter(TogetherWith(host, sel, t, items, x), kept)
    {
      var together := TogetherWith(host, sel, t, items, x);
      FilterAgree(Tied(less, x), together, rows);
      FilterAgree(Tied(less, x), together, kept);
    }
  }

  /** ORDER BY one expression shows the rows with the values of the expression running up,
      or down for DESC, along the result, LIMIT or not. */
  lemma OrderByExpressionRuns(
    host: Host, sel: Select, t: Table, e: Expr, desc: bool, i: nat, j: nat) returns (a: Row, b: Row)
    requires sel.orderBy == Some([OrderItem(e, desc)]) && !e.Position?
    requires Orderable(host, ItemValues(host, sel, t, OrderItem(e, desc)))
    requires i < j < |SelectedRows(host, sel, t)|
    ensures a in t.rows && b in t.rows && Satisfies(host, sel, t, a) && Satisfies(host, sel, t, b)
    ensures SelectedRows(host, sel, t)[i] == Shown(host, sel, t, a)
    ensures SelectedRows(host, sel, t)[j] == Shown(host, sel, t, b)
    ensures var columns := NamesOf(t.columns);
            var x, y := Eval(host, Context(columns, a), e), Eval(host, Context(columns, b), e);
            if desc then CompareValues(host, x, y) >= 0 else CompareValues(host, x, y) <= 0
  {
    hide Eval, NamesOf, Projections, OutRow, Filtered, Orderable, Satisfies, ItemValues, RowLess, Filter;
    var item := OrderItem(e, desc);
    var items, bare := [item], sel.(limit := None);
    var columns, kept := NamesOf(t.columns), Filter(Satisfying(host, sel, t), t.rows);
    FilterIsSatisfying(host, sel, t);
    ItemsOrderRows(host, sel, t, items);
    OrderByIsTheStableArrangement(host, sel, columns, kept);
    var arranged := Arranged(host, sel, t);
    SameElements(arranged, kept);
    var lo, hi := LimitIsContiguous(arranged, sel.limit);
    a, b := arranged[lo + i], arranged[lo + j];
    assert !RowOrder(host, sel.fields, columns, items)(b, a);
    RowLessIsPrecedes(host, sel.fields, columns, items, b, a);
    assert items[0] == item && ItemSign(host, sel.fields, columns, items[0], b, a) >= 0;
    CompareAntisymmetric(host, Eval(host, Context(columns, a), e), Eval(host, Context(columns, b), e));
  }

  /** ORDER BY a position that names no plain column orders nothing. */
  lemma PositionWithoutColumn(host: Host, sel: Select, t: Table, n: Int64, desc: bool)
    requires sel.orderBy == Some([OrderItem(Position(n), desc)])
    requires 1 <= n <= |sel.fields| ==> !(sel.fields[n - 1].Item? && sel.fields[n - 1].expr.Column?)
    ensures SelectedRows(host, sel, t) == SelectedRows(host, sel.(orderBy := None), t)
  {
    hide Eval, NamesOf, Projections, OutRow, Filtered, StableSort;
    var columns := NamesOf(t.columns);
    var rows := Filtered(host, columns, t.rows, sel.where);
    var less := RowOrder(host, sel.fields, columns, [OrderItem(Position(n), desc)]);
    forall a, b
      ensures !less(a, b)
    {
      var items := [OrderItem(Position(n), desc)];
      assert KeyOf(sel.fields, items[0].expr) == None && items[1..] == [];
      assert !RowLess(host, sel.fields, columns, items[1..], a, b);
    }
    assert StableArrangement(less, rows, rows);
    OnlyTheSortArranges(less, rows, rows);
  }
}
