// What a SELECT statement returns: which rows, in which order, in which pages,
// and under which output columns.
module SelectTheorems {
  import opened Common
  import opened Values
  import opened ExprEval
  import opened StableOrder
  import opened SelectHandler
  import K = KleeneReference

  // ---------- WHERE against three-valued logic ----------

  ghost predicate RefTruthIs(host: Host, columns: seq<string>, where: Expr, t: Tri, row: Row) {
    TriOf(K.RefEval(host, Context(columns, row), where)) == t
  }

  ghost function RefRows(host: Host, columns: seq<string>, where: Expr, t: Tri): Row -> bool {
    row => RefTruthIs(host, columns, where, t, row)
  }

  /** The rows on which no BETWEEN and no IS [NOT] TRUE departs and the reference finds `t`. */
  ghost function QuietRows(host: Host, columns: seq<string>, where: Expr, t: Tri): Row -> bool {
    row => K.Quiet(host, Context(columns, row), where, false) && RefTruthIs(host, columns, where, t, row)
  }

  /** Among the rows on which no BETWEEN and no IS [NOT] TRUE departs, WHERE keeps every row
      on which the condition is true and drops every row on which it is false: it can only
      differ from three-valued logic on rows where the condition is unknown. */
  lemma WhereDiffersOnlyOnUnknown(host: Host, columns: seq<string>, rows: seq<Row>, where: Expr)
    requires K.Guarded(where)
    ensures var kept := Filtered(host, columns, rows, Some(where));
            var isTrue, isFalse := QuietRows(host, columns, where, True), QuietRows(host, columns, where, False);
            Filter(isTrue, kept) == Filter(isTrue, rows) && Filter(isFalse, kept) == []
  {
    hide Filter, Eval, K.RefEval, K.Guarded, K.Quiet;
    var keeps := Keeps(host, columns, where);
    var isTrue, isFalse := QuietRows(host, columns, where, True), QuietRows(host, columns, where, False);
    forall row
      ensures isTrue(row) ==> keeps(row)
      ensures isFalse(row) ==> !keeps(row)
    {
      if K.Quiet(host, Context(columns, row), where, false) {
        K.EvaluatorCompletesReference(host, Context(columns, row), where);
      }
    }
    FiltersCommute(isTrue, keeps, rows);
    AllKept(keeps, Filter(isTrue, rows));
    NothingKept(isFalse, Filter(keeps, rows));
  }

  /** The condition is true on the row exactly if it is known to be. */
  ghost predicate JudgesRightly(host: Host, columns: seq<string>, where: Expr, row: Row) {
    !K.Wrong(host, Context(columns, row), where) && !K.Missed(host, Context(columns, row), where)
  }

  /** Whatever AND, OR and NOT it is built from, a condition keeps exactly the rows on which
      three-valued logic finds it true, in input order, if and only if it is neither wrongly
      true nor missed on any row. */
  lemma WhereIsExact(host: Host, columns: seq<string>, rows: seq<Row>, where: Expr)
    requires forall row :: row in rows ==> K.Grounded(host, Context(columns, row), where)
    ensures Filtered(host, columns, rows, Some(where)) == Filter(RefRows(host, columns, where, True), rows)
       <==> forall row :: row in rows ==> JudgesRightly(host, columns, where, row)
  {
    hide Eval, K.RefEval, K.Grounded, K.Known;
    var keeps, isTrue := Keeps(host, columns, where), RefRows(host, columns, where, True);
    forall row | row in rows
      ensures keeps(row) == isTrue(row) <==> JudgesRightly(host, columns, where, row)
    {
      K.FormulaIsExact(host, Context(columns, row), where);
    }
    FilterAgreeExactly(keeps, isTrue, rows);
  }

  // ---------- ORDER BY ----------

  /** The sign of the comparison under an item's key, turned around for DESC; 0 without a key. */
  function Decision(host: Host, fields: seq<Field>, columns: seq<string>, item: OrderItem, a: Row, b: Row): int {
    match KeyOf(fields, item.expr)
    case None => 0
    case Some(key) =>
      if item.desc then -CompareByKey(host, columns, key, a, b) else CompareByKey(host, columns, key, a, b)
  }

  /** Key `k` puts `a` before `b`, and no earlier key tells them apart. */
  ghost predicate DecidesAt(
    host: Host, fields: seq<Field>, columns: seq<string>, items: seq<OrderItem>, a: Row, b: Row, k: nat)
    requires k < |items|
  {
    && Decision(host, fields, columns, items[k], a, b) < 0
    && forall j :: 0 <= j < k ==> Decision(host, fields, columns, items[j], a, b) == 0
  }

  lemma RowLessUnfold(host: Host, fields: seq<Field>, columns: seq<string>, items: seq<OrderItem>, a: Row, b: Row)
    requires items != []
    ensures var d := Decision(host, fields, columns, items[0], a, b);
            RowLess(host, fields, columns, items, a, b)
            <==> d < 0 || (d == 0 && RowLess(host, fields, columns, items[1..], a, b))
  {
  }

  /** The comparator is the lexicographic order of the keys that resolve. */
  lemma {:induction false} RowLessIsLexicographic(
    host: Host, fields: seq<Field>, columns: seq<string>, items: seq<OrderItem>, a: Row, b: Row)
    ensures RowLess(host, fields, columns, items, a, b)
       <==> exists k :: 0 <= k < |items| && DecidesAt(host, fields, columns, items, a, b, k)
  {
    if items != [] {
      RowLessUnfold(host, fields, columns, items, a, b);
      hide RowLess, Decision;
      var rest := items[1..];
      RowLessIsLexicographic(host, fields, columns, rest, a, b);
      assert forall j :: 0 < j < |items| ==> items[j] == rest[j - 1];
      if Decision(host, fields, columns, items[0], a, b) == 0 {
        forall k | 0 <= k < |rest|
          ensures DecidesAt(host, fields, columns, rest, a, b, k)
             <==> DecidesAt(host, fields, columns, items, a, b, k + 1)
        {
          assert forall j :: 0 <= j <= k ==> rest[j] == items[j + 1];
        }
        if k :| 0 <= k < |items| && DecidesAt(host, fields, columns, items, a, b, k) {
          assert DecidesAt(host, fields, columns, rest, a, b, k - 1);
        }
      } else if RowLess(host, fields, columns, items, a, b) {
        assert DecidesAt(host, fields, columns, items, a, b, 0);
      }
    }
  }

  ghost function KeyValues(host: Host, columns: seq<string>, key: Expr, rows: seq<Row>): iset<Value> {
    iset row | row in rows :: Eval(host, Context(columns, row), key)
  }

  /** Every key that resolves takes orderable values on the rows. */
  ghost predicate OrderableKeys(
    host: Host, fields: seq<Field>, columns: seq<string>, items: seq<OrderItem>, rows: seq<Row>) {
    forall k :: 0 <= k < |items| && KeyOf(fields, items[k].expr).Some? ==>
      Orderable(host, KeyValues(host, columns, KeyOf(fields, items[k].expr).value, rows))
  }

  lemma DecisionsCompose(host: Host, fields: seq<Field>, columns: seq<string>, item: OrderItem, rows: seq<Row>,
                         a: Row, b: Row, c: Row)
    requires a in rows && b in rows && c in rows
    requires OrderableKeys(host, fields, columns, [item], rows)
    ensures Decision(host, fields, columns, item, a, b) == -Decision(host, fields, columns, item, b, a)
    ensures Decision(host, fields, columns, item, a, b) <= 0 && Decision(host, fields, columns, item, b, c) <= 0
        ==> Decision(host, fields, columns, item, a, c) <= 0
  {
    match KeyOf(fields, [item][0].expr)
    case None =>
    case Some(key) =>
      var vs := KeyValues(host, columns, key, rows);
      var x, y := Eval(host, Context(columns, a), key), Eval(host, Context(columns, b), key);
      var z := Eval(host, Context(columns, c), key);
      assert x in vs && y in vs && z in vs;
      ComparePreorder(host, vs, x, y, z);
      ComparePreorder(host, vs, z, y, x);
      CompareAntisymmetric(host, x, y);
      CompareAntisymmetric(host, y, z);
      CompareAntisymmetric(host, x, z);
  }

  lemma {:induction false} RowLessCoherent(
    host: Host, fields: seq<Field>, columns: seq<string>, items: seq<OrderItem>, rows: seq<Row>, a: Row, b: Row, c: Row)
    requires a in rows && b in rows && c in rows
    requires OrderableKeys(host, fields, columns, items, rows)
    ensures RowLess(host, fields, columns, items, a, b) ==> !RowLess(host, fields, columns, items, b, a)
    ensures !RowLess(host, fields, columns, items, a, b) && !RowLess(host, fields, columns, items, b, c)
        ==> !RowLess(host, fields, columns, items, a, c)
  {
    if items != [] {
      var item := items[0];
      assert OrderableKeys(host, fields, columns, [item], rows) by {
        assert [item][0] == items[0];
      }
      assert OrderableKeys(host, fields, columns, items[1..], rows);
      RowLessCoherent(host, fields, columns, items[1..], rows, a, b, c);
      DecisionsCompose(host, fields, columns, item, rows, a, b, c);
      DecisionsCompose(host, fields, columns, item, rows, b, c, a);
      DecisionsCompose(host, fields, columns, item, rows, c, b, a);
      DecisionsCompose(host, fields, columns, item, rows, c, a, b);
      DecisionsCompose(host, fields, columns, item, rows, a, c, b);
      DecisionsCompose(host, fields, columns, item, rows, b, a, c);
      RowLessUnfold(host, fields, columns, items, a, b);
      RowLessUnfold(host, fields, columns, items, b, a);
      RowLessUnfold(host, fields, columns, items, b, c);
      RowLessUnfold(host, fields, columns, items, a, c);
    }
  }

  /** Over orderable keys the comparator is a strict weak order on the rows. */
  lemma RowOrderIsStrictWeak(
    host: Host, fields: seq<Field>, columns: seq<string>, items: seq<OrderItem>, rows: seq<Row>)
    requires OrderableKeys(host, fields, columns, items, rows)
    ensures StrictWeakOn(RowOrder(host, fields, columns, items), rows)
  {
    forall a, b, c | a in rows && b in rows && c in rows
      ensures Coherent(RowOrder(host, fields, columns, items), a, b, c)
    {
      RowLessCoherent(host, fields, columns, items, rows, a, b, c);
    }
  }

  /** The rows the first key ties with `r`. */
  function TiedWith(host: Host, fields: seq<Field>, columns: seq<string>, item: OrderItem, r: Row): Row -> bool {
    row => Decision(host, fields, columns, item, r, row) == 0
  }

  /** Among rows the first key ties, the later keys decide. */
  lemma TiesAgree(
    host: Host, fields: seq<Field>, columns: seq<string>, items: seq<OrderItem>, rows: seq<Row>, r: Row, a: Row, b: Row)
    requires items != [] && OrderableKeys(host, fields, columns, [items[0]], rows)
    requires r in rows && a in rows && b in rows
    requires Decision(host, fields, columns, items[0], r, a) == 0
    requires Decision(host, fields, columns, items[0], r, b) == 0
    ensures RowLess(host, fields, columns, items, a, b) == RowLess(host, fields, columns, items[1..], a, b)
  {
    hide RowLess, Decision, OrderableKeys;
    DecisionsCompose(host, fields, columns, items[0], rows, a, r, b);
    DecisionsCompose(host, fields, columns, items[0], rows, b, r, a);
    DecisionsCompose(host, fields, columns, items[0], rows, r, a, b);
    DecisionsCompose(host, fields, columns, items[0], rows, r, b, a);
    DecisionsCompose(host, fields, columns, items[0], rows, a, b, r);
    RowLessUnfold(host, fields, columns, items, a, b);
  }

  lemma KeyThenTies(
    host: Host, fields: seq<Field>, columns: seq<string>, items: seq<OrderItem>, rows: seq<Row>, a: Row, b: Row, c: Row)
    requires items != [] && OrderableKeys(host, fields, columns, [items[0]], rows)
    requires a in rows && b in rows && c in rows
    requires StrictWeakOn(RowOrder(host, fields, columns, items[1..]),
                          Filter(TiedWith(host, fields, columns, items[0], a), rows))
    ensures Coherent(RowOrder(host, fields, columns, items), a, b, c)
  {
    hide RowLess, Decision, OrderableKeys;
    var item, later := items[0], RowOrder(host, fields, columns, items[1..]);
    var tied := TiedWith(host, fields, columns, item, a);
    forall p, q, s | p in [a, b, c] && q in [a, b, c] && s in [a, b, c]
      ensures Decision(host, fields, columns, item, p, q) == -Decision(host, fields, columns, item, q, p)
      ensures Decision(host, fields, columns, item, p, q) <= 0 && Decision(host, fields, columns, item, q, s) <= 0
          ==> Decision(host, fields, columns, item, p, s) <= 0
    {
      DecisionsCompose(host, fields, columns, item, rows, p, q, s);
    }
    RowLessUnfold(host, fields, columns, items, a, b);
    RowLessUnfold(host, fields, columns, items, b, a);
    RowLessUnfold(host, fields, columns, items, b, c);
    RowLessUnfold(host, fields, columns, items, a, c);
    assert tied(a);
    assert tied(b) ==> Coherent(later, a, b, a);
    assert tied(b) && tied(c) ==> Coherent(later, a, b, c);
  }

  /** With an orderable first key the comparator is a strict weak order on the rows exactly
      when the later keys are one on every class of rows the first key ties. */
  lemma LaterKeysOrderTies(
    host: Host, fields: seq<Field>, columns: seq<string>, items: seq<OrderItem>, rows: seq<Row>)
    requires items != [] && OrderableKeys(host, fields, columns, [items[0]], rows)
    ensures StrictWeakOn(RowOrder(host, fields, columns, items), rows)
       <==> forall r :: r in rows ==>
              StrictWeakOn(RowOrder(host, fields, columns, items[1..]),
                           Filter(TiedWith(host, fields, columns, items[0], r), rows))
  {
    hide RowLess, Decision, OrderableKeys;
    var less, later := RowOrder(host, fields, columns, items), RowOrder(host, fields, columns, items[1..]);
    var item := items[0];
    if StrictWeakOn(less, rows) {
      forall r | r in rows
        ensures StrictWeakOn(later, Filter(TiedWith(host, fields, columns, item, r), rows))
      {
        var tied := Filter(TiedWith(host, fields, columns, item, r), rows);
        forall a, b, c | a in tied && b in tied && c in tied
          ensures Coherent(later, a, b, c)
        {
          assert Coherent(less, a, b, c);
          TiesAgree(host, fields, columns, items, rows, r, a, b);
          TiesAgree(host, fields, columns, items, rows, r, b, c);
          TiesAgree(host, fields, columns, items, rows, r, a, c);
          TiesAgree(host, fields, columns, items, rows, r, b, a);
        }
      }
    }
    if forall r :: r in rows ==> StrictWeakOn(later, Filter(TiedWith(host, fields, columns, item, r), rows)) {
      forall a, b, c | a in rows && b in rows && c in rows
        ensures Coherent(less, a, b, c)
      {
        var tied := Filter(TiedWith(host, fields, columns, item, a), rows);
        assert StrictWeakOn(later, tied);
        KeyThenTies(host, fields, columns, items, rows, a, b, c);
      }
    }
  }

  lemma StrictWeakChains(host: Host, fields: seq<Field>, columns: seq<string>, item: OrderItem, key: Expr,
                         rows: seq<Row>, a: Row, b: Row, c: Row)
    requires KeyOf(fields, item.expr) == Some(key) && a in rows && b in rows && c in rows
    requires StrictWeakOn(RowOrder(host, fields, columns, [item]), rows)
    ensures CompareByKey(host, columns, key, a, b) <= 0 && CompareByKey(host, columns, key, b, c) <= 0
        ==> CompareByKey(host, columns, key, a, c) <= 0
  {
    hide Eval, CompareValues;
    var less := RowOrder(host, fields, columns, [item]);
    forall p, q | p in [a, b, c] && q in [a, b, c]
      ensures less(p, q) <==> if item.desc then CompareByKey(host, columns, key, q, p) < 0
                              else CompareByKey(host, columns, key, p, q) < 0
      ensures CompareByKey(host, columns, key, p, q) == -CompareByKey(host, columns, key, q, p)
    {
      CompareAntisymmetric(host, Eval(host, Context(columns, p), key), Eval(host, Context(columns, q), key));
      RowLessUnfold(host, fields, columns, [item], p, q);
    }
    assert Coherent(less, a, b, c) && Coherent(less, c, b, a);
  }

  /** With one key the comparator is a strict weak order exactly when the values of the key
      are orderable. */
  lemma OneKeyOrdersExactly(
    host: Host, fields: seq<Field>, columns: seq<string>, item: OrderItem, key: Expr, rows: seq<Row>)
    requires KeyOf(fields, item.expr) == Some(key)
    ensures StrictWeakOn(RowOrder(host, fields, columns, [item]), rows)
       <==> Orderable(host, KeyValues(host, columns, key, rows))
  {
    hide Orderable, CompareValues, Eval;
    var vs, less := KeyValues(host, columns, key, rows), RowOrder(host, fields, columns, [item]);
    TransitiveExactly(host, vs);
    if Orderable(host, vs) {
      RowOrderIsStrictWeak(host, fields, columns, [item], rows);
    }
    if StrictWeakOn(less, rows) {
      forall x, y, z | x in vs && y in vs && z in vs
        ensures Chains(host, x, y, z)
      {
        var a :| a in rows && x == Eval(host, Context(columns, a), key);
        var b :| b in rows && y == Eval(host, Context(columns, b), key);
        var c :| c in rows && z == Eval(host, Context(columns, c), key);
        StrictWeakChains(host, fields, columns, item, key, rows, a, b, c);
      }
    }
  }

  /** Wherever the comparator is a strict weak order, ORDER BY rearranges the rows into key
      order with ties in input order, and no other row sequence is so arranged. */
  lemma OrderByIsTheStableArrangement(host: Host, sel: Select, columns: seq<string>, rows: seq<Row>)
    requires sel.orderBy.Some? && StrictWeakOn(RowOrder(host, sel.fields, columns, sel.orderBy.value), rows)
    ensures var less := RowOrder(host, sel.fields, columns, sel.orderBy.value);
            && StableArrangement(less, rows, Ordered(host, sel, columns, rows))
            && forall r :: StableArrangement(less, rows, r) ==> r == Ordered(host, sel, columns, rows)
  {
    var less := RowOrder(host, sel.fields, columns, sel.orderBy.value);
    SortIsStable(less, rows);
    forall r | StableArrangement(less, rows, r)
      ensures r == Ordered(host, sel, columns, rows)
    {
      OnlyTheSortArranges(less, rows, r);
    }
  }

  /** Filtering before ordering, as the pipeline does, gives the rows ordering before
      filtering would give, for every WHERE and every ORDER BY that orders the rows. */
  lemma WhereCommutesWithOrderBy(host: Host, sel: Select, columns: seq<string>, rows: seq<Row>)
    requires sel.orderBy.Some? ==> StrictWeakOn(RowOrder(host, sel.fields, columns, sel.orderBy.value), rows)
    ensures Ordered(host, sel, columns, Filtered(host, columns, rows, sel.where))
         == Filtered(host, columns, Ordered(host, sel, columns, rows), sel.where)
  {
    if sel.orderBy.Some? && sel.where.Some? {
      var less := RowOrder(host, sel.fields, columns, sel.orderBy.value);
      FilterCommutesWithSort(less, Keeps(host, columns, sel.where.value), rows);
    }
  }

  // ---------- LIMIT ----------

  /** The rows a LIMIT clause asks for, as mathematics. */
  function Slice(rows: seq<Row>, offset: nat, count: nat): seq<Row> {
    if offset >= |rows| then []
    else if offset + count >= |rows| then rows[offset..]
    else rows[offset..offset + count]
  }

  function LimitClause(offset: Uint64, count: Uint64): Option<Limit> {
    Some(Limit(Some(Literal(UnsignedInt(offset))), Some(Literal(UnsignedInt(count)))))
  }

  /** LIMIT returns the slice asked for, for every count, exactly when the offset does not
      wrap to a negative number, or the answer is empty anyway. */
  lemma LimitIsSlice(rows: seq<Row>, offset: Uint64, count: Uint64)
    requires |rows| < TWO_63
    ensures ApplyLimit(rows, LimitClause(offset, count)) == Slice(rows, offset, count)
       <==> offset < TWO_63 || rows == [] || count == 0
  {
    if offset >= TWO_63 && rows != [] && count > 0 {
      assert Slice(rows, offset, count) == [];
      assert rows[0..] == rows;
      assert ApplyLimit(rows, LimitClause(offset, count)) != [];
    }
  }

  /** Without an offset LIMIT starts at the first row; without a readable count it has no end. */
  lemma LimitDefaults(rows: seq<Row>, offset: Uint64, count: Uint64, e: Expr)
    requires |rows| < TWO_63 && offset < TWO_63 && LiteralInt(e) == None
    ensures ApplyLimit(rows, Some(Limit(None, Some(Literal(UnsignedInt(count)))))) == Slice(rows, 0, count)
    ensures ApplyLimit(rows, Some(Limit(Some(Literal(UnsignedInt(offset))), Some(e)))) == Slice(rows, offset, |rows|)
    ensures ApplyLimit(rows, Some(Limit(Some(e), Some(Literal(UnsignedInt(count)))))) == Slice(rows, 0, count)
  {
    assert rows[0..] == rows;
  }

  /** Signed operands ask for the same where they are not negative; a negative offset is none,
      and a negative count has no end. */
  lemma SignedLimits(rows: seq<Row>, offset: Int64, count: Int64)
    requires |rows| < TWO_63
    ensures ApplyLimit(rows, Some(Limit(Some(Literal(SignedInt(offset))), Some(Literal(SignedInt(count))))))
         == Slice(rows, if offset > 0 then offset else 0, if count >= 0 then count else |rows|)
  {
    assert rows[0..] == rows;
  }

  /** The statement with its LIMIT clause replaced. */
  function Page(host: Host, sel: Select, t: Table, offset: Uint64, count: Uint64): seq<Row> {
    SelectedRows(host, sel.(limit := LimitClause(offset, count)), t)
  }

  /** What a client collects that asks for pages of `k` rows until past the end. */
  function Pages(host: Host, sel: Select, t: Table, k: nat, offset: nat): seq<Row>
    requires 1 <= k < TWO_63 && |Arranged(host, sel, t)| < TWO_63
    decreases |Arranged(host, sel, t)| - offset
  {
    if offset >= |Arranged(host, sel, t)| then []
    else Page(host, sel, t, offset, k) + Pages(host, sel, t, k, offset + k)
  }

  /** A page is the slice of the whole result: LIMIT acts before projection, to the same effect. */
  lemma PageIsSlice(host: Host, sel: Select, t: Table, offset: nat, k: nat)
    requires sel.limit.None? && 1 <= k < TWO_63 && offset < |Arranged(host, sel, t)| < TWO_63
    ensures Page(host, sel, t, offset, k) == Slice(SelectedRows(host, sel, t), offset, k)
  {
    hide Filtered, Projections, OutRow, Eval;
    LimitIsSlice(Arranged(host, sel, t), offset, k);
  }

  lemma {:induction false} PagesFromOffset(host: Host, sel: Select, t: Table, k: nat, offset: nat)
    requires sel.limit.None? && 1 <= k < TWO_63 && |Arranged(host, sel, t)| < TWO_63
    ensures Pages(host, sel, t, k, offset)
         == if offset <= |SelectedRows(host, sel, t)| then SelectedRows(host, sel, t)[offset..] else []
    decreases |Arranged(host, sel, t)| - offset
  {
    hide Page, Arranged, Projections, OutRow;
    assert |SelectedRows(host, sel, t)| == |Arranged(host, sel, t)|;
    if offset < |Arranged(host, sel, t)| {
      PagesFromOffset(host, sel, t, k, offset + k);
      PageIsSlice(host, sel, t, offset, k);
    }
  }

  /** Paging through a query returns its whole result, every row exactly once and in order. */
  lemma PagesPartitionTheResult(host: Host, sel: Select, t: Table, k: nat)
    requires sel.limit.None? && 1 <= k < TWO_63 && |Arranged(host, sel, t)| < TWO_63
    ensures Pages(host, sel, t, k, 0) == SelectedRows(host, sel, t)
  {
    PagesFromOffset(host, sel, t, k, 0);
  }

  lemma LimitIsContiguous(rows: seq<Row>, lim: Option<Limit>) returns (lo: nat, hi: nat)
    ensures lo <= hi <= |rows| && ApplyLimit(rows, lim) == rows[lo..hi]
  {
    lo, hi := 0, |rows|;
    if lim.Some? {
      var off := if lim.value.offset.Some? then LiteralInt(lim.value.offset.value) else None;
      if off.Some? && off.value > 0 {
        lo := if off.value <= |rows| then off.value else |rows|;
      }
      hi := lo + |ApplyLimit(rows, lim)|;
    }
  }

  // ---------- Output columns ----------

  lemma {:induction false} OneProjectionEach(host: Host, columns: seq<string>, fields: seq<Field>)
    requires forall j :: 0 <= j < |fields| ==> !fields[j].WildCard?
    ensures |Projections(host, columns, fields)| == |fields|
  {
    if fields != [] {
      OneProjectionEach(host, columns, fields[..|fields| - 1]);
    }
  }

  lemma {:induction false} ProjectionAt(host: Host, columns: seq<string>, fields: seq<Field>, k: nat)
    requires k < |fields| && forall j :: 0 <= j <= k ==> !fields[j].WildCard?
    ensures k < |Projections(host, columns, fields)|
    ensures Projections(host, columns, fields)[k] == ProjsOf(host, columns, fields[k])[0]
  {
    var init := fields[..|fields| - 1];
    if k < |init| {
      ProjectionAt(host, columns, init, k);
    } else {
      OneProjectionEach(host, columns, init);
    }
  }

  lemma {:induction false} ProjectionsConcat(host: Host, columns: seq<string>, a: seq<Field>, b: seq<Field>)
    ensures Projections(host, columns, a + b) == Projections(host, columns, a) + Projections(host, columns, b)
  {
    if b == [] {
      assert a + b == a;
    } else {
      assert (a + b)[..|a + b| - 1] == a + b[..|b| - 1];
      ProjectionsConcat(host, columns, a, b[..|b| - 1]);
      var last := ProjsOf(host, columns, b[|b| - 1]);
      Associate(Projections(host, columns, a), Projections(host, columns, b[..|b| - 1]), last);
      hide ProjsOf;
    }
  }

  lemma StarProjs(host: Host, columns: seq<string>)
    ensures Projections(host, columns, [WildCard]) == WildCardProjs(columns)
  {
  }

  /** Wherever `*` stands in a select list, it shows all columns of the table in order, each
      under its own name with its own cell, between what stands left and right of it. */
  lemma StarShowsEveryColumn(host: Host, columns: seq<string>, left: seq<Field>, right: seq<Field>, row: Row, k: nat)
    requires k < |columns| <= |row|
    ensures var projs := Projections(host, columns, left + [WildCard] + right);
            var at := |Projections(host, columns, left)| + k;
            && |projs| == |Projections(host, columns, left)| + |columns| + |Projections(host, columns, right)|
            && projs[at].col == columns[k]
            && OutRow(host, columns, projs, row)[at] == NormalizeValue(row[k])
  {
    StarProjs(host, columns);
    hide Projections, Eval;
    ProjectionsConcat(host, columns, left + [WildCard], right);
    ProjectionsConcat(host, columns, left, [WildCard]);
    var l, projs := Projections(host, columns, left), Projections(host, columns, left + [WildCard] + right);
    assert projs[|l| + k] == WildCardProjs(columns)[k];
  }

  /** A plain column of the select list whose alias, if any, resolves as its name does. */
  predicate ShowsColumn(host: Host, columns: seq<string>, f: Field) {
    && f.Item? && f.expr.Column? && f.expr.name != ""
    && (f.asName != "" ==> FirstIndex(host, columns, f.asName) == FirstIndex(host, columns, host.lower(f.expr.name)))
  }

  function CellAt(row: Row, i: Option<nat>): Value {
    if i.Some? then Cell(row, i.value) else Null
  }

  /** A row whose cells are all different tells any two columns apart. */
  lemma CellsTellApart(n: nat, i: Option<nat>, j: Option<nat>) returns (row: Row)
    requires i != j && (i.Some? ==> i.value < n) && (j.Some? ==> j.value < n)
    ensures |row| == n && NormalizeValue(CellAt(row, i)) != NormalizeValue(CellAt(row, j))
  {
    row := seq(n, k requires 0 <= k < n => Text(seq(k, _ => 'x')));
    if i.Some? {
      assert |row[i.value].s| == i.value;
    }
    if j.Some? {
      assert |row[j.value].s| == j.value;
    }
  }

  lemma AliasCell(host: Host, columns: seq<string>, name: string, alias: string, row: Row)
    requires alias != ""
    ensures OutCell(host, columns, ProjsOf(host, columns, Item(Column(name), alias))[0], row)
         == NormalizeValue(CellAt(row, FirstIndex(host, columns, alias)))
    ensures ColumnValue(host, Context(columns, row), name) == CellAt(row, FirstIndex(host, columns, name))
  {
    hide FirstIndex, Cell;
  }

  /** `SELECT name AS alias` shows the column `name` on every row exactly when the alias
      resolves to the same column: the alias, not the name, is looked up. */
  lemma AliasShowsItsColumn(host: Host, columns: seq<string>, name: string, alias: string)
    requires alias != ""
    ensures
      (forall row: Row :: |row| == |columns| ==>
         OutCell(host, columns, ProjsOf(host, columns, Item(Column(name), alias))[0], row)
         == NormalizeValue(ColumnValue(host, Context(columns, row), host.lower(name))))
      <==> FirstIndex(host, columns, alias) == FirstIndex(host, columns, host.lower(name))
  {
    hide OutCell, ColumnValue, CellAt, FirstIndex, NormalizeValue;
    var byAlias, byName := FirstIndex(host, columns, alias), FirstIndex(host, columns, host.lower(name));
    forall row: Row
      ensures OutCell(host, columns, ProjsOf(host, columns, Item(Column(name), alias))[0], row)
           == NormalizeValue(CellAt(row, byAlias))
      ensures ColumnValue(host, Context(columns, row), host.lower(name)) == CellAt(row, byName)
    {
      AliasCell(host, columns, name, alias, row);
      AliasCell(host, columns, host.lower(name), alias, row);
    }
    if byAlias != byName {
      var row := CellsTellApart(|columns|, byAlias, byName);
    }
  }

  /** The rows a statement shows, each a projection of an arranged row, stay in arranged order. */
  lemma ShownRow(host: Host, sel: Select, t: Table, i: nat, j: nat) returns (a: nat, b: nat)
    requires i < j < |SelectedRows(host, sel, t)|
    ensures a < b < |Arranged(host, sel, t)|
    ensures var columns := NamesOf(t.columns);
            var projs := Projections(host, columns, sel.fields);
            && SelectedRows(host, sel, t)[i] == OutRow(host, columns, projs, Arranged(host, sel, t)[a])
            && SelectedRows(host, sel, t)[j] == OutRow(host, columns, projs, Arranged(host, sel, t)[b])
  {
    hide Arranged, Projections, OutRow, ApplyLimit;
    var lo, hi := LimitIsContiguous(Arranged(host, sel, t), sel.limit);
    a, b := lo + i, lo + j;
  }

  /** Two rows in arranged order are in key order when the only key is `key`. */
  lemma ArrangedByKey(
    host: Host, sel: Select, columns: seq<string>, rows: seq<Row>, key: Expr, desc: bool, a: nat, b: nat)
    requires exists e :: sel.orderBy == Some([OrderItem(e, desc)]) && KeyOf(sel.fields, e) == Some(key)
    requires Orderable(host, KeyValues(host, columns, key, rows))
    requires a < b < |Ordered(host, sel, columns, rows)|
    ensures var arranged := Ordered(host, sel, columns, rows);
            && arranged[a] in rows && arranged[b] in rows
            && if desc then CompareByKey(host, columns, key, arranged[a], arranged[b]) >= 0
               else CompareByKey(host, columns, key, arranged[a], arranged[b]) <= 0
  {
    var items, arranged := sel.orderBy.value, Ordered(host, sel, columns, rows);
    RowOrderIsStrictWeak(host, sel.fields, columns, items, rows);
    OrderByIsTheStableArrangement(host, sel, columns, rows);
    SameElements(arranged, rows);
    assert !RowOrder(host, sel.fields, columns, items)(arranged[b], arranged[a]);
    RowLessUnfold(host, sel.fields, columns, items, arranged[b], arranged[a]);
    var x, y := Eval(host, Context(columns, arranged[a]), key), Eval(host, Context(columns, arranged[b]), key);
    CompareAntisymmetric(host, x, y);
  }

  lemma OneField(host: Host, columns: seq<string>, f: Field)
    ensures Projections(host, columns, [f]) == ProjsOf(host, columns, f)
  {
    assert [f][..0] == [];
  }

  /** What a field of the select list shows, and under which name, wherever it stands: a
      plain column its cell, looked up by alias if there is one, any other expression its
      value; true and false are shown as 1 and 0. */
  lemma FieldIsShown(
    host: Host, columns: seq<string>, left: seq<Field>, e: Expr, alias: string, right: seq<Field>, row: Row)
    ensures var projs := Projections(host, columns, left + [Item(e, alias)] + right);
            var at, c := |Projections(host, columns, left)|, Context(columns, row);
            var v := if e.Column? && alias != "" then ColumnValue(host, c, alias) else Eval(host, c, e);
            && at < |projs|
            && projs[at].col == (if alias != "" then alias else if e.Column? then e.name else "?column?")
            && OutRow(host, columns, projs, row)[at] == if v.Bool? then SignedInt(if v.b then 1 else 0) else v
  {
    var field := Item(e, alias);
    ProjectionsConcat(host, columns, left + [field], right);
    ProjectionsConcat(host, columns, left, [field]);
    OneField(host, columns, field);
    hide Projections;
    var projs := Projections(host, columns, left + [field] + right);
    assert projs[|Projections(host, columns, left)|] == ProjsOf(host, columns, field)[0];
  }

  /** What output column `n` shows of a row is the row's value under the key ORDER BY n sorts by. */
  lemma PositionKeyIsShown(host: Host, columns: seq<string>, fields: seq<Field>, n: Int64, row: Row)
    requires 1 <= n <= |fields| && ShowsColumn(host, columns, fields[n - 1])
    requires forall k :: 0 <= k < n ==> !fields[k].WildCard?
    ensures KeyOf(fields, Position(n)) == Some(fields[n - 1].expr)
    ensures var projs := Projections(host, columns, fields);
            && n <= |projs|
            && OutRow(host, columns, projs, row)[n - 1]
            == NormalizeValue(Eval(host, Context(columns, row), fields[n - 1].expr))
  {
    ProjectionAt(host, columns, fields, n - 1);
  }

  /** ORDER BY N orders what column N shows: after WHERE, ORDER BY N, LIMIT and projection,
      the values of output column N run up, or down for DESC. */
  lemma OrderByPositionOrdersWhatIsShown(host: Host, sel: Select, t: Table, n: Int64, desc: bool, i: nat, j: nat)
    requires 1 <= n <= |sel.fields| && sel.orderBy == Some([OrderItem(Position(n), desc)])
    requires forall k :: 0 <= k < n ==> !sel.fields[k].WildCard?
    requires ShowsColumn(host, NamesOf(t.columns), sel.fields[n - 1])
    requires
      var columns := NamesOf(t.columns);
      var vs := KeyValues(host, columns, sel.fields[n - 1].expr, Filtered(host, columns, t.rows, sel.where));
      Orderable(host, vs) && forall v :: v in vs ==> !v.Bool?
    requires i < j < |SelectedRows(host, sel, t)|
    ensures
      var out := SelectedRows(host, sel, t);
      && |out[i]| >= n && |out[j]| >= n
      && if desc then CompareValues(host, out[i][n - 1], out[j][n - 1]) >= 0
         else CompareValues(host, out[i][n - 1], out[j][n - 1]) <= 0
  {
    var columns, key := NamesOf(t.columns), sel.fields[n - 1].expr;
    var rows := Filtered(host, columns, t.rows, sel.where);
    var arranged := Arranged(host, sel, t);
    var a, b := ShownRow(host, sel, t, i, j);
    PositionKeyIsShown(host, columns, sel.fields, n, arranged[a]);
    ArrangedByKey(host, sel, columns, rows, key, desc, a, b);
    PositionKeyIsShown(host, columns, sel.fields, n, arranged[b]);
    assert Eval(host, Context(columns, arranged[a]), key) in KeyValues(host, columns, key, rows);
    assert Eval(host, Context(columns, arranged[b]), key) in KeyValues(host, columns, key, rows);
  }
}
