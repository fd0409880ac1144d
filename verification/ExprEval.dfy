// The expression evaluator. Evaluation never produces an error, so it is a total
// function from a row to a value.
module ExprEval {
  import opened Common
  import opened Values
  import LikeRegexp

  datatype CmpOp = EQ | NE | LT | LE | GT | GE | NullEQ

  datatype BinOp = And | Or | Cmp(cmp: CmpOp) | Arith(arith: ArithOp) | OtherBinary

  datatype UnOp = Not | Positive | Negative | OtherUnary

  /** The node kinds of a parsed expression; `Other` is any kind the evaluator has no case for. */
  datatype Expr =
    | Literal(v: Value)
    | Column(name: string)
    | Paren(inner: Expr)
    | Binary(bop: BinOp, l: Expr, r: Expr)
    | Unary(uop: UnOp, arg: Expr)
    | IsNull(arg: Expr, not: bool)
    | IsTruth(arg: Expr, not: bool, truth: bool)
    | Between(arg: Expr, lo: Expr, hi: Expr, not: bool)
    | In(arg: Expr, list: seq<Expr>, not: bool)
    | Like(arg: Expr, pattern: Expr, not: bool)
    | Regexp(arg: Expr, pattern: Expr, not: bool)
    | Position(n: Int64)
    | Other

  datatype Context = Context(columns: seq<string>, row: Row)

  // ---------- Columns ----------

  predicate Names(host: Host, column: string, name: string) {
    var n := host.lower(name);
    |column| == |n| && host.lower(column) == n
  }

  /** A column can be named at all, in particular by its own name, exactly when lower-casing
      keeps its length in bytes. */
  lemma NameableExactly(host: Host, column: string)
    ensures (exists name :: Names(host, column, name)) <==> |host.lower(column)| == |column|
    ensures Names(host, column, column) <==> |host.lower(column)| == |column|
  {
    assert Names(host, column, column) <==> |host.lower(column)| == |column|;
  }

  function FirstIndexFrom(host: Host, columns: seq<string>, name: string, from: nat): (r: Option<nat>)
    requires from <= |columns|
    ensures r.Some? ==> from <= r.value < |columns| && Names(host, columns[r.value], name)
    ensures forall k :: from <= k < (if r.Some? then r.value else |columns|) ==> !Names(host, columns[k], name)
    decreases |columns| - from
  {
    if from == |columns| then None
    else if Names(host, columns[from], name) then Some(from)
    else FirstIndexFrom(host, columns, name, from + 1)
  }

  /** The first column whose name equals `name` up to case. */
  function FirstIndex(host: Host, columns: seq<string>, name: string): (r: Option<nat>)
    ensures r.Some? ==> r.value < |columns| && Names(host, columns[r.value], name)
    ensures forall k :: 0 <= k < (if r.Some? then r.value else |columns|) ==> !Names(host, columns[k], name)
  {
    FirstIndexFrom(host, columns, name, 0)
  }

  /** A cell of a row; a row too short for the index, on which the program panics, reads NULL. */
  function Cell(row: Row, i: nat): Value {
    if i < |row| then row[i] else Null
  }

  /** A column reference reads the first column so named, and NULL when there is none. */
  function ColumnValue(host: Host, c: Context, name: string): Value {
    match FirstIndex(host, c.columns, name)
    case Some(i) => Cell(c.row, i)
    case None => Null
  }

  method Lookup(host: Host, c: Context, name: string) returns (v: Value, found: bool)
    requires var i := FirstIndex(host, c.columns, name); i.Some? ==> i.value < |c.row|
    ensures v == ColumnValue(host, c, name)
    ensures found <==> exists k :: 0 <= k < |c.columns| && Names(host, c.columns[k], name)
  {
    var n := host.lower(name);
    for i := 0 to |c.columns|
      invariant forall k :: 0 <= k < i ==> !Names(host, c.columns[k], name)
    {
      var col := c.columns[i];
      if |col| == |n| && host.lower(col) == n {
        assert Names(host, c.columns[i], name);
        return c.row[i], true;
      }
    }
    return Null, false;
  }

  // ---------- Evaluation ----------

  predicate Holds(op: CmpOp, cmp: int) {
    match op
    case EQ => cmp == 0
    case NullEQ => cmp == 0
    case NE => cmp != 0
    case LT => cmp < 0
    case LE => cmp <= 0
    case GT => cmp > 0
    case GE => cmp >= 0
  }

  function CompareOp(host: Host, op: CmpOp, l: Value, r: Value): Value {
    if op == NullEQ then
      if l == Null && r == Null then Bool(true)
      else if l == Null || r == Null then Bool(false)
      else Bool(CompareValues(host, l, r) == 0)
    else if l == Null || r == Null then Null
    else Bool(Holds(op, CompareValues(host, l, r)))
  }

  function Arithmetic(host: Host, op: ArithOp, l: Value, r: Value): Value {
    match (ToNumber(host, l), ToNumber(host, r))
    case (Some(x), Some(y)) =>
      if (op == Div || op == Mod) && y == Finite(0.0) then Null else Float(host.arith(op, x, y))
    case _ => Null
  }

  function Negate(x: Number): Number {
    match x
    case NaN => NaN
    case NegInf => PosInf
    case PosInf => NegInf
    case Finite(r) => Finite(-r)
  }

  lemma NegateTurns(x: Number, y: Number)
    ensures Negate(Negate(x)) == x
    ensures CompareNumbers(Negate(x), Negate(y)) == CompareNumbers(y, x)
  {
  }

  function EvalAnd(l: Value, r: Value): Value {
    if TriOf(l) == False then Bool(false)
    else if TriOf(r) != True then Bool(false)
    else Bool(true)
  }

  function EvalOr(l: Value, r: Value): Value {
    if TriOf(l) == True || TriOf(r) == True then Bool(true)
    else if TriOf(l) == Unknown || TriOf(r) == Unknown then Null
    else Bool(false)
  }

  function EvalBinary(host: Host, op: BinOp, l: Value, r: Value): Value {
    match op
    case And => EvalAnd(l, r)
    case Or => EvalOr(l, r)
    case Cmp(cmp) => CompareOp(host, cmp, l, r)
    case Arith(arith) => Arithmetic(host, arith, l, r)
    case OtherBinary => Null
  }

  function EvalUnary(host: Host, op: UnOp, v: Value): Value {
    match op
    case Not => Bool(NotTri(TriOf(v)) == True)
    case Positive => v
    case Negative => (match ToNumber(host, v) case Some(x) => Float(Negate(x)) case None => Null)
    case OtherUnary => Null
  }

  function EvalBetween(host: Host, v: Value, lo: Value, hi: Value, not: bool): Value {
    if v == Null || lo == Null || hi == Null then
      Null
    else
      var inRange := CompareValues(host, v, lo) >= 0 && CompareValues(host, v, hi) <= 0;
      Bool(if not then !inRange else inRange)
  }

  /** What the membership scan reports once it has seen `matched` and `hasNull`. */
  function InResult(matched: bool, hasNull: bool, not: bool): Value {
    if !matched && hasNull then Null else Bool(if not then !matched else matched)
  }

  predicate Matches(host: Host, v: Value, items: seq<Value>) {
    exists k :: 0 <= k < |items| && items[k] != Null && CompareValues(host, v, items[k]) == 0
  }

  function EvalIn(host: Host, v: Value, items: seq<Value>, not: bool): Value {
    if v == Null then Null else InResult(Matches(host, v, items), Null in items, not)
  }

  function EvalLike(host: Host, v: Value, p: Value, not: bool): Value {
    if v == Null || p == Null then
      Null
    else
      match LikeRegexp.Compile(LikeRegexp.LikeText(TextOf(host, p)))
      case None => Null
      case Some(items) => Bool(LikeRegexp.Finds(host.fold, items, host.runes(TextOf(host, v))) != not)
  }

  function EvalRegexp(host: Host, v: Value, p: Value, not: bool): Value {
    if v == Null || p == Null then
      Null
    else
      match host.regexp("(?i)" + TextOf(host, p), TextOf(host, v))
      case None => Null
      case Some(found) => Bool(found != not)
  }

  function EvalIsTruth(v: Value, not: bool, truth: bool): Value {
    var t := if not then NotTri(TriOf(v)) else TriOf(v);
    Bool(t == if truth then True else False)
  }

  function Eval(host: Host, c: Context, e: Expr): Value {
    match e
    case Literal(v) => v
    case Column(name) => ColumnValue(host, c, host.lower(name))
    case Paren(inner) => Eval(host, c, inner)
    case Binary(op, l, r) => EvalBinary(host, op, Eval(host, c, l), Eval(host, c, r))
    case Unary(op, arg) => EvalUnary(host, op, Eval(host, c, arg))
    case IsNull(arg, not) => Bool((Eval(host, c, arg) == Null) != not)
    case IsTruth(arg, not, truth) => EvalIsTruth(Eval(host, c, arg), not, truth)
    case Between(arg, lo, hi, not) => EvalBetween(host, Eval(host, c, arg), Eval(host, c, lo), Eval(host, c, hi), not)
    case In(arg, list, not) =>
      EvalIn(host, Eval(host, c, arg), seq(|list|, k requires 0 <= k < |list| => Eval(host, c, list[k])), not)
    case Like(arg, pattern, not) => EvalLike(host, Eval(host, c, arg), Eval(host, c, pattern), not)
    case Regexp(arg, pattern, not) => EvalRegexp(host, Eval(host, c, arg), Eval(host, c, pattern), not)
    case Position(n) => SignedInt(n)
    case Other => Null
  }

  function TriValue(t: Tri): Value {
    match t case True => Bool(true) case False => Bool(false) case Unknown => Null
  }

  // ---------- Columns, arithmetic, negation and REGEXP, as evaluated ----------

  /** A column reference reads the cell of the first column with that name, in whatever case
      it is written, and NULL when there is none. */
  lemma ColumnIsRead(host: Host, c: Context, name: string, k: nat)
    requires host.lower(host.lower(name)) == host.lower(name)
    ensures k < |c.columns| && k < |c.row| && Names(host, c.columns[k], name)
         && (forall j :: 0 <= j < k ==> !Names(host, c.columns[j], name))
        ==> Eval(host, c, Column(name)) == c.row[k]
    ensures (forall j :: 0 <= j < |c.columns| ==> !Names(host, c.columns[j], name)) ==>
      Eval(host, c, Column(name)) == Null
  {
    forall j | 0 <= j < |c.columns|
      ensures Names(host, c.columns[j], name) <==> Names(host, c.columns[j], host.lower(name))
    {
    }
  }

  /** IS NULL and IS NOT NULL always answer, and tell NULL from every value; parentheses change
      nothing, literals stand for themselves, and what the evaluator has no case for is NULL. */
  lemma PlainForms(host: Host, c: Context, e: Expr, v: Value, l: Expr, r: Expr)
    ensures Eval(host, c, IsNull(e, false)) == Bool(Eval(host, c, e) == Null)
    ensures Eval(host, c, IsNull(e, true)) == Bool(Eval(host, c, e) != Null)
    ensures Eval(host, c, Paren(e)) == Eval(host, c, e) && Eval(host, c, Literal(v)) == v
    ensures Eval(host, c, Other) == Eval(host, c, Binary(OtherBinary, l, r)) == Null
    ensures Eval(host, c, Unary(OtherUnary, e)) == Null
  {
  }

  /** Unary minus is NULL exactly on what is no number. It turns a finite number into the one
      that adds up to zero with it, exchanges the infinities and keeps NaN; done twice it
      gives the number back. Unary plus changes nothing. */
  lemma MinusNegates(host: Host, c: Context, e: Expr)
    ensures var x, r := ToNumber(host, Eval(host, c, e)), Eval(host, c, Unary(Negative, e));
            && (r == Null <==> x == None)
            && (x.Some? ==> r.Float?)
            && (x.Some? && x.value.Finite? ==> r.f.Finite? && r.f.r + x.value.r == 0.0)
            && (x == Some(NegInf) ==> r.f == PosInf) && (x == Some(PosInf) ==> r.f == NegInf)
            && (x == Some(NaN) ==> r.f == NaN)
    ensures var x := ToNumber(host, Eval(host, c, e));
            Eval(host, c, Unary(Negative, Unary(Negative, e))) == if x.Some? then Float(x.value) else Null
    ensures Eval(host, c, Unary(Positive, e)) == Eval(host, c, e)
  {
    var v := Eval(host, c, e);
    assert Eval(host, c, Unary(Negative, e)) == EvalUnary(host, Negative, v);
    assert Eval(host, c, Unary(Negative, Unary(Negative, e)))
        == EvalUnary(host, Negative, EvalUnary(host, Negative, v));
    assert Eval(host, c, Unary(Positive, e)) == EvalUnary(host, Positive, v);
  }

  /** Evaluated unary minus turns the order of numbers around, NaN and infinities included. */
  lemma NegateReversesOrder(host: Host, c: Context, e: Expr, f: Expr)
    requires ToNumber(host, Eval(host, c, e)).Some? && ToNumber(host, Eval(host, c, f)).Some?
    ensures CompareValues(host, Eval(host, c, Unary(Negative, e)), Eval(host, c, Unary(Negative, f)))
         == CompareValues(host, Eval(host, c, f), Eval(host, c, e))
  {
    var v, w := Eval(host, c, e), Eval(host, c, f);
    assert Eval(host, c, Unary(Negative, e)) == EvalUnary(host, Negative, v);
    assert Eval(host, c, Unary(Negative, f)) == EvalUnary(host, Negative, w);
    NegateTurns(ToNumber(host, v).value, ToNumber(host, w).value);
    hide Eval, CompareNumbers;
  }

  function RealResult(op: ArithOp, x: real, y: real): real {
    match op
    case Plus => x + y
    case Minus => x - y
    case Mul => x * y
    case Div => if y != 0.0 then x / y else 0.0
    case Mod => 0.0
  }

  /** The host adds, subtracts, multiplies and divides finite numbers exactly. */
  ghost predicate ExactArith(host: Host) {
    forall op, x: real, y: real :: op != Mod && (op == Div ==> y != 0.0) ==>
      host.arith(op, Finite(x), Finite(y)) == Finite(RealResult(op, x, y))
  }

  /** Arithmetic is NULL exactly where an operand is no number or the divisor of `/` or `%`
      is zero; otherwise it is what float arithmetic makes of the operands in their order. */
  lemma ArithmeticIsNull(host: Host, c: Context, op: ArithOp, l: Expr, r: Expr)
    ensures var x, y := ToNumber(host, Eval(host, c, l)), ToNumber(host, Eval(host, c, r));
            var v := Eval(host, c, Binary(Arith(op), l, r));
            && (v == Null <==> x == None || y == None || (op in {Div, Mod} && y == Some(Finite(0.0))))
            && (v != Null ==> v == Float(host.arith(op, x.value, y.value)))
  {
  }

  lemma ArithmeticOfNumbers(host: Host, c: Context, op: ArithOp, l: Expr, r: Expr, x: real, y: real)
    requires ExactArith(host) && op != Mod && (op == Div ==> y != 0.0)
    requires ToNumber(host, Eval(host, c, l)) == Some(Finite(x)) && ToNumber(host, Eval(host, c, r)) == Some(Finite(y))
    ensures Eval(host, c, Binary(Arith(op), l, r)) == Float(Finite(RealResult(op, x, y)))
  {
    assert Eval(host, c, Binary(Arith(op), l, r)) == Arithmetic(host, op, Eval(host, c, l), Eval(host, c, r));
    hide Eval, RealResult;
  }

  lemma RealResultsUndone(x: real, y: real)
    ensures RealResult(Plus, RealResult(Minus, x, y), y) == x && (RealResult(Minus, x, y) == 0.0 <==> x == y)
    ensures y != 0.0 ==> RealResult(Mul, RealResult(Div, x, y), y) == x
  {
  }

  /** What is subtracted and added again, or divided by and multiplied again, is undone. */
  lemma ArithmeticUndone(host: Host, c: Context, l: Expr, r: Expr, x: real, y: real)
    requires ExactArith(host)
    requires ToNumber(host, Eval(host, c, l)) == Some(Finite(x)) && ToNumber(host, Eval(host, c, r)) == Some(Finite(y))
    ensures Eval(host, c, Binary(Arith(Plus), Binary(Arith(Minus), l, r), r)) == Float(Finite(x))
    ensures Eval(host, c, Binary(Arith(Minus), l, r)) == Float(Finite(0.0)) <==> x == y
    ensures y != 0.0 ==> Eval(host, c, Binary(Arith(Mul), Binary(Arith(Div), l, r), r)) == Float(Finite(x))
  {
    hide Eval, ExactArith, RealResult;
    RealResultsUndone(x, y);
    ArithmeticOfNumbers(host, c, Minus, l, r, x, y);
    ArithmeticOfNumbers(host, c, Plus, Binary(Arith(Minus), l, r), r, RealResult(Minus, x, y), y);
    if y != 0.0 {
      ArithmeticOfNumbers(host, c, Div, l, r, x, y);
      ArithmeticOfNumbers(host, c, Mul, Binary(Arith(Div), l, r), r, RealResult(Div, x, y), y);
    }
  }

  /** REGEXP is NULL exactly where an operand is NULL or the pattern, read without regard to
      case, does not compile; it is true where the text matches, and NOT REGEXP is its
      three-valued negation. */
  lemma RegexpMatches(host: Host, c: Context, arg: Expr, pattern: Expr)
    ensures var v, p := Eval(host, c, arg), Eval(host, c, pattern);
            var found := host.regexp("(?i)" + TextOf(host, p), TextOf(host, v));
            var r := Eval(host, c, Regexp(arg, pattern, false));
            && (r == Null <==> v == Null || p == Null || found == None)
            && (TriOf(r) == True <==> v != Null && p != Null && found == Some(true))
            && r in {Null, Bool(true), Bool(false)}
            && Eval(host, c, Regexp(arg, pattern, true)) == TriValue(NotTri(TriOf(r)))
  {
  }

  function EvalAll(host: Host, c: Context, list: seq<Expr>): seq<Value> {
    seq(|list|, k requires 0 <= k < |list| => Eval(host, c, list[k]))
  }

  lemma MatchesAppend(host: Host, v: Value, items: seq<Value>, x: Value)
    ensures Matches(host, v, items + [x]) <==> Matches(host, v, items) || (x != Null && CompareValues(host, v, x) == 0)
    ensures Null in items + [x] <==> Null in items || x == Null
  {
    assert (items + [x])[|items|] == x;
    assert forall k :: 0 <= k < |items| ==> (items + [x])[k] == items[k];
  }

  /** The scan of an IN list, item by item. */
  method ScanIn(host: Host, c: Context, arg: Expr, list: seq<Expr>, not: bool) returns (r: Value)
    ensures r == Eval(host, c, In(arg, list, not))
  {
    var v := Eval(host, c, arg);
    if v == Null {
      return Null;
    }
    ghost var items := EvalAll(host, c, list);
    var matched, hasNull := false, false;
    for i := 0 to |list|
      invariant matched == Matches(host, v, items[..i])
      invariant hasNull == (Null in items[..i])
    {
      var iv := Eval(host, c, list[i]);
      MatchesAppend(host, v, items[..i], iv);
      assert items[..i + 1] == items[..i] + [iv];
      if iv == Null {
        hasNull := true;
      } else if CompareValues(host, v, iv) == 0 {
        matched := true;
      }
    }
    assert items[..|list|] == items;
    r := InResult(matched, hasNull, not);
  }

  // ---------- Expansions ----------

  /** `v = x1 OR ... OR v = xn` as the evaluator folds it from the left. */
  function OrOfEquals(arg: Expr, list: seq<Expr>): Expr
    requires list != []
  {
    var last := Binary(Cmp(EQ), arg, list[|list| - 1]);
    if |list| == 1 then last else Binary(Or, OrOfEquals(arg, list[..|list| - 1]), last)
  }

  lemma InOneMore(host: Host, v: Value, front: seq<Value>, x: Value)
    ensures EvalIn(host, v, front + [x], false)
         == if front == [] then CompareOp(host, EQ, v, x)
            else EvalOr(EvalIn(host, v, front, false), CompareOp(host, EQ, v, x))
    ensures EvalIn(host, v, front + [x], true) == TriValue(NotTri(TriOf(EvalIn(host, v, front + [x], false))))
  {
    MatchesAppend(host, v, front, x);
  }

  /** IN is the OR of the equalities, and NOT IN its three-valued negation. */
  lemma {:induction false} InIsOrOfEquals(host: Host, c: Context, arg: Expr, list: seq<Expr>)
    requires list != []
    ensures Eval(host, c, In(arg, list, false)) == Eval(host, c, OrOfEquals(arg, list))
    ensures Eval(host, c, In(arg, list, true)) == TriValue(NotTri(TriOf(Eval(host, c, In(arg, list, false)))))
  {
    hide EvalIn, CompareOp, TriOf, TriValue, NotTri;
    var v, init, last := Eval(host, c, arg), list[..|list| - 1], list[|list| - 1];
    var front, x := EvalAll(host, c, init), Eval(host, c, last);
    assert EvalAll(host, c, list) == front + [x];
    InOneMore(host, v, front, x);
    assert Eval(host, c, In(arg, list, false)) == EvalIn(host, v, front + [x], false);
    assert Eval(host, c, In(arg, list, true)) == EvalIn(host, v, front + [x], true);
    if |list| > 1 {
      InIsOrOfEquals(host, c, arg, init);
      assert Eval(host, c, In(arg, init, false)) == EvalIn(host, v, front, false);
    }
  }

  lemma BetweenOfValues(host: Host, v: Value, l: Value, h: Value)
    ensures
      var expanded := EvalAnd(CompareOp(host, GE, v, l), CompareOp(host, LE, v, h));
      var noNull := v != Null && l != Null && h != Null;
      && (EvalBetween(host, v, l, h, false) == expanded <==> noNull)
      && (EvalBetween(host, v, l, h, true) == EvalUnary(host, Not, expanded) <==> noNull)
  {
    hide CompareValues;
  }

  /** BETWEEN is its expansion into two comparisons, and NOT BETWEEN the negated
      expansion, exactly when no operand is NULL: AND and NOT never answer NULL here. */
  lemma BetweenIsExpansion(host: Host, c: Context, arg: Expr, lo: Expr, hi: Expr)
    ensures
      var expanded := Binary(And, Binary(Cmp(GE), arg, lo), Binary(Cmp(LE), arg, hi));
      var noNull := Eval(host, c, arg) != Null && Eval(host, c, lo) != Null && Eval(host, c, hi) != Null;
      && (Eval(host, c, Between(arg, lo, hi, false)) == Eval(host, c, expanded) <==> noNull)
      && (Eval(host, c, Between(arg, lo, hi, true)) == Eval(host, c, Unary(Not, expanded)) <==> noNull)
  {
    var v, l, h := Eval(host, c, arg), Eval(host, c, lo), Eval(host, c, hi);
    var expanded := Binary(And, Binary(Cmp(GE), arg, lo), Binary(Cmp(LE), arg, hi));
    BetweenOfValues(host, v, l, h);
    hide EvalBetween, EvalAnd, CompareOp, EvalUnary;
    assert Eval(host, c, expanded) == EvalAnd(CompareOp(host, GE, v, l), CompareOp(host, LE, v, h));
  }
}
