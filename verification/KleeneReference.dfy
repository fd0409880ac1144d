// A reference semantics in three-valued logic, over the program's own comparison, truth
// test and pattern search, and exactly how far the evaluator agrees with it.
module KleeneReference {
  import opened Values
  import opened ExprEval
  import opened LikeRegexp

  ghost function KleeneAnd(l: Tri, r: Tri): Tri {
    if l == False || r == False then False
    else if l == Unknown || r == Unknown then Unknown
    else True
  }

  ghost function KleeneOr(l: Tri, r: Tri): Tri {
    NotTri(KleeneAnd(NotTri(l), NotTri(r)))
  }

  /** `l` comes no later than `r` in the comparison order. */
  ghost predicate AtMost(host: Host, l: Value, r: Value) {
    CompareValues(host, l, r) <= 0
  }

  ghost predicate Relates(host: Host, op: CmpOp, l: Value, r: Value) {
    match op
    case EQ => AtMost(host, l, r) && AtMost(host, r, l)
    case NullEQ => AtMost(host, l, r) && AtMost(host, r, l)
    case NE => !AtMost(host, l, r) || !AtMost(host, r, l)
    case LT => !AtMost(host, r, l)
    case LE => AtMost(host, l, r)
    case GT => !AtMost(host, l, r)
    case GE => AtMost(host, r, l)
  }

  ghost function RefCompare(host: Host, op: CmpOp, l: Value, r: Value): Value {
    if op == NullEQ then Bool(if l == Null || r == Null then l == r else Relates(host, op, l, r))
    else if l == Null || r == Null then Null
    else Bool(Relates(host, op, l, r))
  }

  ghost function RefBinary(host: Host, op: BinOp, l: Value, r: Value): Value {
    match op
    case And => TriValue(KleeneAnd(TriOf(l), TriOf(r)))
    case Or => TriValue(KleeneOr(TriOf(l), TriOf(r)))
    case Cmp(cmp) => RefCompare(host, cmp, l, r)
    case Arith(arith) => Arithmetic(host, arith, l, r)
    case OtherBinary => Null
  }

  ghost function RefUnary(host: Host, op: UnOp, v: Value): Value {
    if op == Not then TriValue(NotTri(TriOf(v))) else EvalUnary(host, op, v)
  }

  /** IS [NOT] TRUE and IS [NOT] FALSE always know the answer; NOT turns it around. */
  ghost function RefIsTruth(v: Value, not: bool, truth: bool): Value {
    Bool((TriOf(v) == (if truth then True else False)) != not)
  }

  /** BETWEEN is the conjunction of two comparisons, either of which may be unknown. */
  ghost function RefBetween(host: Host, v: Value, lo: Value, hi: Value, not: bool): Value {
    var t := KleeneAnd(TriOf(RefCompare(host, GE, v, lo)), TriOf(RefCompare(host, LE, v, hi)));
    TriValue(if not then NotTri(t) else t)
  }

  /** Membership folds the equalities with the Kleene OR. */
  ghost function RefIn(host: Host, v: Value, items: seq<Value>): Tri {
    if items == [] then False
    else KleeneOr(RefIn(host, v, items[..|items| - 1]), TriOf(RefCompare(host, EQ, v, items[|items| - 1])))
  }

  ghost function RefInValue(host: Host, v: Value, items: seq<Value>, not: bool): Value {
    if v == Null then Null else TriValue(if not then NotTri(RefIn(host, v, items)) else RefIn(host, v, items))
  }

  /** Some stretch of the subject matches the pattern piece by piece. */
  ghost predicate RefLike(host: Host, v: Value, p: Value) {
    var s := host.runes(TextOf(host, v));
    exists i, j :: 0 <= i <= j <= |s| && LikeMatches(host.fold, false, Tokens(TextOf(host, p)), s[i..j])
  }

  ghost function RefLikeValue(host: Host, v: Value, p: Value, not: bool): Value {
    if v == Null || p == Null then Null else Bool(not != RefLike(host, v, p))
  }

  ghost function RefEval(host: Host, c: Context, e: Expr): Value {
    match e
    case Literal(v) => v
    case Column(name) => ColumnValue(host, c, host.lower(name))
    case Paren(inner) => RefEval(host, c, inner)
    case Binary(op, l, r) => RefBinary(host, op, RefEval(host, c, l), RefEval(host, c, r))
    case Unary(op, arg) => RefUnary(host, op, RefEval(host, c, arg))
    case IsNull(arg, not) => Bool(if not then RefEval(host, c, arg) != Null else RefEval(host, c, arg) == Null)
    case IsTruth(arg, not, truth) => RefIsTruth(RefEval(host, c, arg), not, truth)
    case Between(arg, lo, hi, not) =>
      RefBetween(host, RefEval(host, c, arg), RefEval(host, c, lo), RefEval(host, c, hi), not)
    case In(arg, list, not) =>
      RefInValue(host, RefEval(host, c, arg), seq(|list|, k requires 0 <= k < |list| => RefEval(host, c, list[k])), not)
    case Like(arg, pattern, not) => RefLikeValue(host, RefEval(host, c, arg), RefEval(host, c, pattern), not)
    case Regexp(arg, pattern, not) => EvalRegexp(host, RefEval(host, c, arg), RefEval(host, c, pattern), not)
    case Position(n) => SignedInt(n)
    case Other => Null
  }

  // ---------- Which expressions agree ----------

  /** No AND and no NOT anywhere inside. */
  predicate LogicFree(e: Expr) {
    match e
    case Paren(inner) => LogicFree(inner)
    case Binary(op, l, r) => op != And && LogicFree(l) && LogicFree(r)
    case Unary(op, arg) => op != Not && LogicFree(arg)
    case IsNull(arg, _) => LogicFree(arg)
    case IsTruth(arg, _, _) => LogicFree(arg)
    case Between(arg, lo, hi, _) => LogicFree(arg) && LogicFree(lo) && LogicFree(hi)
    case In(arg, list, _) => LogicFree(arg) && forall k :: 0 <= k < |list| ==> LogicFree(list[k])
    case Like(arg, pattern, _) => LogicFree(arg) && LogicFree(pattern)
    case Regexp(arg, pattern, _) => LogicFree(arg) && LogicFree(pattern)
    case _ => true
  }

  /** IS NULL, IS TRUE and `<=>`, which can tell NULL from a value, see no AND and no NOT. */
  predicate Guarded(e: Expr) {
    match e
    case Paren(inner) => Guarded(inner)
    case Binary(op, l, r) =>
      if op == Cmp(NullEQ) then LogicFree(l) && LogicFree(r) else Guarded(l) && Guarded(r)
    case Unary(_, arg) => Guarded(arg)
    case IsNull(arg, _) => LogicFree(arg)
    case IsTruth(arg, _, _) => LogicFree(arg)
    case Between(arg, lo, hi, _) => Guarded(arg) && Guarded(lo) && Guarded(hi)
    case In(arg, list, _) => Guarded(arg) && forall k :: 0 <= k < |list| ==> Guarded(list[k])
    case Like(arg, pattern, _) => Guarded(arg) && Guarded(pattern)
    case Regexp(arg, pattern, _) => Guarded(arg) && Guarded(pattern)
    case _ => true
  }

  /** `v` is the reference value, or the reference value is NULL. */
  ghost predicate Refines(ref: Value, v: Value) {
    ref == Null || v == ref
  }

  lemma RelatesHolds(host: Host, op: CmpOp, l: Value, r: Value)
    ensures Relates(host, op, l, r) == Holds(op, CompareValues(host, l, r))
  {
    hide CompareValues;
    CompareAntisymmetric(host, l, r);
  }

  lemma CompareAgrees(host: Host, op: CmpOp, l: Value, r: Value)
    ensures CompareOp(host, op, l, r) == RefCompare(host, op, l, r)
  {
    hide CompareValues, Relates, AtMost;
    RelatesHolds(host, op, l, r);
  }

  lemma LikeAgrees(host: Host, v: Value, p: Value, not: bool)
    ensures EvalLike(host, v, p, not) == RefLikeValue(host, v, p, not)
    ensures v == Null || p == Null ==> RefLikeValue(host, v, p, not) == Null
  {
    SearchMeansSomeStretchMatches(host.fold, TextOf(host, p), host.runes(TextOf(host, v)));
  }

  lemma RefInOneMore(host: Host, v: Value, init: seq<Value>, last: Value)
    ensures RefIn(host, v, init + [last]) == KleeneOr(RefIn(host, v, init), TriOf(RefCompare(host, EQ, v, last)))
  {
    hide RefCompare;
    assert (init + [last])[..|init + [last]| - 1] == init;
  }

  lemma NothingMatches(host: Host, v: Value)
    ensures !Matches(host, v, [])
  {
  }

  lemma EqualityTri(host: Host, v: Value, x: Value)
    requires v != Null
    ensures TriOf(RefCompare(host, EQ, v, x))
         == if x == Null then Unknown else if CompareValues(host, v, x) == 0 then True else False
  {
    CompareAgrees(host, EQ, v, x);
  }

  /** The two flags of the scan carry what the Kleene fold of the equalities knows. */
  lemma {:induction false} ScanIsKleeneFold(host: Host, v: Value, items: seq<Value>)
    requires v != Null
    ensures RefIn(host, v, items)
         == if Matches(host, v, items) then True else if Null in items then Unknown else False
  {
    if items == [] {
      NothingMatches(host, v);
    } else {
      hide CompareValues, RefCompare, Matches, RefIn;
      var init, last := items[..|items| - 1], items[|items| - 1];
      ScanIsKleeneFold(host, v, init);
      RefInOneMore(host, v, init, last);
      MatchesAppend(host, v, init, last);
      EqualityTri(host, v, last);
      assert items == init + [last];
    }
  }

  lemma {:induction false} RefInRefined(host: Host, v: Value, refs: seq<Value>, items: seq<Value>)
    requires v != Null && |refs| == |items|
    requires forall k :: 0 <= k < |refs| ==> Refines(refs[k], items[k])
    ensures RefIn(host, v, refs) != Unknown ==> RefIn(host, v, items) == RefIn(host, v, refs)
  {
    if items != [] {
      RefInRefined(host, v, refs[..|refs| - 1], items[..|items| - 1]);
      assert Refines(refs[|refs| - 1], items[|items| - 1]);
    }
  }

  lemma InAgrees(host: Host, ref: Value, v: Value, refs: seq<Value>, items: seq<Value>, not: bool)
    requires Refines(ref, v) && |refs| == |items|
    requires forall k :: 0 <= k < |refs| ==> Refines(refs[k], items[k])
    ensures Refines(RefInValue(host, ref, refs, not), EvalIn(host, v, items, not))
    ensures ref == v && refs == items ==> RefInValue(host, ref, refs, not) == EvalIn(host, v, items, not)
  {
    if ref != Null {
      RefInRefined(host, v, refs, items);
      ScanIsKleeneFold(host, v, items);
    }
  }

  lemma BinaryRefined(host: Host, op: BinOp, refL: Value, refR: Value, l: Value, r: Value)
    requires Refines(refL, l) && Refines(refR, r)
    requires op == Cmp(NullEQ) ==> refL == l && refR == r
    ensures Refines(RefBinary(host, op, refL, refR), EvalBinary(host, op, l, r))
    ensures op != And && refL == l && refR == r ==> EvalBinary(host, op, l, r) == RefBinary(host, op, refL, refR)
  {
    match op
    case Cmp(cmp) => CompareAgrees(host, cmp, l, r);
    case _ =>
  }

  // ---------- Where an operator departs ----------

  /** One bound of a BETWEEN is NULL and the other already rules the value out. */
  predicate CutShort(host: Host, v: Value, lo: Value, hi: Value) {
    && v != Null
    && (|| (lo == Null && hi != Null && CompareValues(host, v, hi) > 0)
        || (hi == Null && lo != Null && CompareValues(host, v, lo) < 0))
  }

  /** BETWEEN departs from three-valued logic exactly when it is cut short: it answers NULL
      where the answer is known to be false, or true for NOT BETWEEN. */
  lemma BetweenDepartsExactly(host: Host, v: Value, lo: Value, hi: Value, not: bool)
    ensures EvalBetween(host, v, lo, hi, not) == RefBetween(host, v, lo, hi, not) <==> !CutShort(host, v, lo, hi)
    ensures CutShort(host, v, lo, hi) ==>
      EvalBetween(host, v, lo, hi, not) == Null && RefBetween(host, v, lo, hi, not) == Bool(not)
  {
    hide CompareValues, RefCompare;
    CompareAgrees(host, GE, v, lo);
    CompareAgrees(host, LE, v, hi);
  }

  /** IS NOT TRUE and IS NOT FALSE depart exactly on NULL, where they answer false. */
  lemma IsTruthDepartsExactly(v: Value, not: bool, truth: bool)
    ensures EvalIsTruth(v, not, truth) == RefIsTruth(v, not, truth) <==> !(not && v == Null)
    ensures not && v == Null ==> EvalIsTruth(v, not, truth) == Bool(false) && RefIsTruth(v, not, truth) == Bool(true)
  {
  }

  /** Neither side decides an AND, and the answer is unknown. */
  predicate AndDeparts(l: Value, r: Value) {
    TriOf(l) != False && TriOf(r) != False && !(TriOf(l) == True && TriOf(r) == True)
  }

  predicate IsTrue(v: Value) {
    TriOf(v) == True
  }

  /** Operator by operator, where the evaluator departs from three-valued logic: AND
      wherever the answer is unknown, NOT on an unknown operand. OR never does. */
  lemma WhereOperatorsDepart(host: Host, l: Value, r: Value)
    ensures EvalAnd(l, r) == TriValue(KleeneAnd(TriOf(l), TriOf(r))) <==> !AndDeparts(l, r)
    ensures IsTrue(EvalAnd(l, r)) == (KleeneAnd(TriOf(l), TriOf(r)) == True) <==> !(l == Null && TriOf(r) == True)
    ensures EvalOr(l, r) == TriValue(KleeneOr(TriOf(l), TriOf(r)))
    ensures EvalUnary(host, Not, l) == RefUnary(host, Not, l) <==> l != Null
  {
  }

  /** The outermost operator of `e` departs on this row; of AND and NOT only if `logic`. */
  predicate DepartsHere(host: Host, c: Context, e: Expr, logic: bool) {
    match e
    case Between(arg, lo, hi, _) => CutShort(host, Eval(host, c, arg), Eval(host, c, lo), Eval(host, c, hi))
    case IsTruth(arg, not, _) => not && Eval(host, c, arg) == Null
    case Binary(And, l, r) => logic && AndDeparts(Eval(host, c, l), Eval(host, c, r))
    case Unary(Not, arg) => logic && Eval(host, c, arg) == Null
    case _ => false
  }

  /** No operator inside the operands of `e` departs on this row. */
  predicate OperandsQuiet(host: Host, c: Context, e: Expr, logic: bool)
    decreases e, 0
  {
    match e
    case Paren(inner) => Quiet(host, c, inner, logic)
    case Binary(_, l, r) => Quiet(host, c, l, logic) && Quiet(host, c, r, logic)
    case Unary(_, arg) => Quiet(host, c, arg, logic)
    case IsNull(arg, _) => Quiet(host, c, arg, logic)
    case IsTruth(arg, _, _) => Quiet(host, c, arg, logic)
    case Between(arg, lo, hi, _) => Quiet(host, c, arg, logic) && Quiet(host, c, lo, logic) && Quiet(host, c, hi, logic)
    case In(arg, list, _) =>
      Quiet(host, c, arg, logic) && forall k :: 0 <= k < |list| ==> Quiet(host, c, list[k], logic)
    case Like(arg, pattern, _) => Quiet(host, c, arg, logic) && Quiet(host, c, pattern, logic)
    case Regexp(arg, pattern, _) => Quiet(host, c, arg, logic) && Quiet(host, c, pattern, logic)
    case _ => true
  }

  /** No BETWEEN and no IS [NOT] TRUE anywhere in `e` departs on this row; if `logic`, no AND
      and no NOT either. */
  predicate Quiet(host: Host, c: Context, e: Expr, logic: bool)
    decreases e, 1
  {
    !DepartsHere(host, c, e, logic) && OperandsQuiet(host, c, e, logic)
  }

  lemma BetweenRefined(host: Host, refV: Value, refLo: Value, refHi: Value, v: Value, lo: Value, hi: Value, not: bool)
    requires Refines(refV, v) && Refines(refLo, lo) && Refines(refHi, hi) && !CutShort(host, v, lo, hi)
    ensures Refines(RefBetween(host, refV, refLo, refHi, not), EvalBetween(host, v, lo, hi, not))
  {
    hide CompareValues, Relates, EvalBetween;
    BetweenDepartsExactly(host, v, lo, hi, not);
  }

  lemma UnaryRefined(host: Host, op: UnOp, ref: Value, v: Value)
    requires Refines(ref, v)
    ensures Refines(RefUnary(host, op, ref), EvalUnary(host, op, v))
    ensures op != Not && ref == v ==> EvalUnary(host, op, v) == RefUnary(host, op, ref)
  {
  }

  lemma RegexpOfNull(host: Host, v: Value, p: Value, not: bool)
    requires v == Null || p == Null
    ensures EvalRegexp(host, v, p, not) == Null
  {
  }

  lemma InCompletesReference(host: Host, c: Context, arg: Expr, list: seq<Expr>, not: bool)
    requires Refines(RefEval(host, c, arg), Eval(host, c, arg))
    requires forall k :: 0 <= k < |list| ==> Refines(RefEval(host, c, list[k]), Eval(host, c, list[k]))
    ensures Refines(RefEval(host, c, In(arg, list, not)), Eval(host, c, In(arg, list, not)))
    ensures RefEval(host, c, arg) == Eval(host, c, arg)
         && (forall k :: 0 <= k < |list| ==> RefEval(host, c, list[k]) == Eval(host, c, list[k]))
        ==> RefEval(host, c, In(arg, list, not)) == Eval(host, c, In(arg, list, not))
  {
    hide RefInValue, EvalIn;
    var refs := seq(|list|, k requires 0 <= k < |list| => RefEval(host, c, list[k]));
    var items := EvalAll(host, c, list);
    InAgrees(host, RefEval(host, c, arg), Eval(host, c, arg), refs, items, not);
    assert RefEval(host, c, In(arg, list, not)) == RefInValue(host, RefEval(host, c, arg), refs, not);
    assert Eval(host, c, In(arg, list, not)) == EvalIn(host, Eval(host, c, arg), items, not);
    if forall k :: 0 <= k < |list| ==> RefEval(host, c, list[k]) == Eval(host, c, list[k]) {
      assert refs == items;
    }
  }

  lemma LogicFreeIsGuarded(e: Expr)
    ensures LogicFree(e) ==> Guarded(e)
    decreases e
  {
  }

  /** The evaluator completes three-valued logic: where no BETWEEN and no IS [NOT] TRUE
      departs, it returns the reference value whenever that is not NULL, and always on
      expressions without AND and NOT. */
  lemma {:induction false} EvaluatorCompletesReference(host: Host, c: Context, e: Expr)
    requires Guarded(e) && Quiet(host, c, e, false)
    ensures RefEval(host, c, e) != Null ==> Eval(host, c, e) == RefEval(host, c, e)
    ensures LogicFree(e) ==> Eval(host, c, e) == RefEval(host, c, e)
    decreases e
  {
    hide EvalIn, RefLikeValue, RefInValue, CompareValues, EvalBinary, RefBinary, EvalBetween, RefBetween;
    hide EvalLike, EvalRegexp, EvalIsTruth, RefIsTruth, EvalUnary, RefUnary, CutShort, TriOf;
    match e
    case Paren(inner) =>
      EvaluatorCompletesReference(host, c, inner);
    case Binary(op, l, r) =>
      LogicFreeIsGuarded(l);
      LogicFreeIsGuarded(r);
      EvaluatorCompletesReference(host, c, l);
      EvaluatorCompletesReference(host, c, r);
      BinaryRefined(host, op, RefEval(host, c, l), RefEval(host, c, r), Eval(host, c, l), Eval(host, c, r));
    case Unary(op, arg) =>
      EvaluatorCompletesReference(host, c, arg);
      UnaryRefined(host, op, RefEval(host, c, arg), Eval(host, c, arg));
    case IsNull(arg, _) =>
      LogicFreeIsGuarded(arg);
      EvaluatorCompletesReference(host, c, arg);
    case IsTruth(arg, not, truth) =>
      LogicFreeIsGuarded(arg);
      EvaluatorCompletesReference(host, c, arg);
      IsTruthDepartsExactly(Eval(host, c, arg), not, truth);
    case Between(arg, lo, hi, not) =>
      EvaluatorCompletesReference(host, c, arg);
      EvaluatorCompletesReference(host, c, lo);
      EvaluatorCompletesReference(host, c, hi);
      var v, l, h := Eval(host, c, arg), Eval(host, c, lo), Eval(host, c, hi);
      BetweenRefined(host, RefEval(host, c, arg), RefEval(host, c, lo), RefEval(host, c, hi), v, l, h, not);
      BetweenDepartsExactly(host, v, l, h, not);
    case In(arg, list, not) =>
      EvaluatorCompletesReference(host, c, arg);
      forall k | 0 <= k < |list|
        ensures Refines(RefEval(host, c, list[k]), Eval(host, c, list[k]))
        ensures LogicFree(list[k]) ==> RefEval(host, c, list[k]) == Eval(host, c, list[k])
      {
        EvaluatorCompletesReference(host, c, list[k]);
      }
      InCompletesReference(host, c, arg, list, not);
    case Like(arg, pattern, not) =>
      EvaluatorCompletesReference(host, c, arg);
      EvaluatorCompletesReference(host, c, pattern);
      LikeAgrees(host, Eval(host, c, arg), Eval(host, c, pattern), not);
      LikeAgrees(host, RefEval(host, c, arg), RefEval(host, c, pattern), not);
    case Regexp(arg, pattern, not) =>
      EvaluatorCompletesReference(host, c, arg);
      EvaluatorCompletesReference(host, c, pattern);
      if RefEval(host, c, arg) == Null || RefEval(host, c, pattern) == Null {
        RegexpOfNull(host, RefEval(host, c, arg), RefEval(host, c, pattern), not);
      }
    case _ =>
  }

  lemma BinaryAgrees(host: Host, op: BinOp, l: Value, r: Value)
    requires op == And ==> !AndDeparts(l, r)
    ensures EvalBinary(host, op, l, r) == RefBinary(host, op, l, r)
  {
    if op == And {
      WhereOperatorsDepart(host, l, r);
    } else {
      BinaryRefined(host, op, l, r, l, r);
    }
  }

  /** Where no operator at all departs the evaluator returns the reference value. */
  lemma {:induction false} QuietAgrees(host: Host, c: Context, e: Expr)
    requires Quiet(host, c, e, true)
    ensures Eval(host, c, e) == RefEval(host, c, e)
    decreases e
  {
    hide EvalIn, RefLikeValue, RefInValue, CompareValues, EvalBinary, RefBinary, EvalBetween, RefBetween;
    hide EvalLike, EvalRegexp;
    match e
    case Paren(inner) => QuietAgrees(host, c, inner);
    case Binary(op, l, r) =>
      QuietAgrees(host, c, l);
      QuietAgrees(host, c, r);
      BinaryAgrees(host, op, Eval(host, c, l), Eval(host, c, r));
    case Unary(op, arg) =>
      QuietAgrees(host, c, arg);
    case IsNull(arg, _) => QuietAgrees(host, c, arg);
    case IsTruth(arg, not, truth) =>
      QuietAgrees(host, c, arg);
      IsTruthDepartsExactly(Eval(host, c, arg), not, truth);
    case Between(arg, lo, hi, not) =>
      QuietAgrees(host, c, arg);
      QuietAgrees(host, c, lo);
      QuietAgrees(host, c, hi);
      BetweenDepartsExactly(host, Eval(host, c, arg), Eval(host, c, lo), Eval(host, c, hi), not);
    case In(arg, list, not) =>
      QuietAgrees(host, c, arg);
      forall k | 0 <= k < |list|
        ensures RefEval(host, c, list[k]) == Eval(host, c, list[k])
      {
        QuietAgrees(host, c, list[k]);
      }
      InCompletesReference(host, c, arg, list, not);
    case Like(arg, pattern, not) =>
      QuietAgrees(host, c, arg);
      QuietAgrees(host, c, pattern);
      LikeAgrees(host, Eval(host, c, arg), Eval(host, c, pattern), not);
    case Regexp(arg, pattern, _) =>
      QuietAgrees(host, c, arg);
      QuietAgrees(host, c, pattern);
    case _ =>
  }

  /** Without the guard agreement fails: (NULL AND TRUE) IS NULL is true in three-valued logic
      and false here. */
  lemma GuardIsNeeded(host: Host, c: Context)
    ensures
      var e := IsNull(Binary(And, Literal(Null), Literal(Bool(true))), false);
      RefEval(host, c, e) == Bool(true) && Eval(host, c, e) == Bool(false)
  {
    var inner := Binary(And, Literal(Null), Literal(Bool(true)));
    assert Eval(host, c, inner) == EvalAnd(Eval(host, c, inner.l), Eval(host, c, inner.r));
    assert RefEval(host, c, inner) == RefBinary(host, And, RefEval(host, c, inner.l), RefEval(host, c, inner.r));
  }

  // ---------- Conditions ----------

  /** Below AND, OR and NOT, nothing departs inside the operands of an atom. */
  predicate Grounded(host: Host, c: Context, e: Expr) {
    match e
    case Paren(inner) => Grounded(host, c, inner)
    case Binary(And, l, r) => Grounded(host, c, l) && Grounded(host, c, r)
    case Binary(Or, l, r) => Grounded(host, c, l) && Grounded(host, c, r)
    case Unary(Not, arg) => Grounded(host, c, arg)
    case _ => OperandsQuiet(host, c, e, true)
  }

  /** What this evaluation of the atoms tells about the condition: a BETWEEN cut short is
      known to be false and NOT BETWEEN true, and IS NOT TRUE and IS NOT FALSE of NULL true. */
  ghost function Known(host: Host, c: Context, e: Expr): Tri {
    match e
    case Paren(inner) => Known(host, c, inner)
    case Binary(And, l, r) => KleeneAnd(Known(host, c, l), Known(host, c, r))
    case Binary(Or, l, r) => KleeneOr(Known(host, c, l), Known(host, c, r))
    case Unary(Not, arg) => NotTri(Known(host, c, arg))
    case Between(_, _, _, not) =>
      if DepartsHere(host, c, e, true) then (if not then True else False) else TriOf(Eval(host, c, e))
    case IsTruth(_, _, _) => if DepartsHere(host, c, e, true) then True else TriOf(Eval(host, c, e))
    case _ => TriOf(Eval(host, c, e))
  }

  /** The condition is true here and not known to be. */
  ghost predicate Wrong(host: Host, c: Context, e: Expr) {
    IsTrue(Eval(host, c, e)) && Known(host, c, e) != True
  }

  /** The condition is known to be true and not true here. */
  ghost predicate Missed(host: Host, c: Context, e: Expr) {
    !IsTrue(Eval(host, c, e)) && Known(host, c, e) == True
  }

  /** An atom is known here as three-valued logic knows it. */
  lemma AtomIsExact(host: Host, c: Context, e: Expr)
    requires !e.Paren? && !(e.Binary? && e.bop in {And, Or}) && !(e.Unary? && e.uop == Not)
    requires OperandsQuiet(host, c, e, true)
    ensures TriOf(RefEval(host, c, e)) == Known(host, c, e)
  {
    if !DepartsHere(host, c, e, true) {
      QuietAgrees(host, c, e);
    } else {
      match e
      case Between(arg, lo, hi, not) =>
        QuietAgrees(host, c, arg);
        QuietAgrees(host, c, lo);
        QuietAgrees(host, c, hi);
        BetweenDepartsExactly(host, Eval(host, c, arg), Eval(host, c, lo), Eval(host, c, hi), not);
      case IsTruth(arg, not, truth) =>
        QuietAgrees(host, c, arg);
        IsTruthDepartsExactly(Eval(host, c, arg), not, truth);
    }
  }

  lemma TriValueKnows(t: Tri)
    ensures TriOf(TriValue(t)) == t
  {
  }

  lemma LogicIsExact(host: Host, c: Context, l: Expr, r: Expr)
    ensures TriOf(RefEval(host, c, Binary(And, l, r)))
         == KleeneAnd(TriOf(RefEval(host, c, l)), TriOf(RefEval(host, c, r)))
    ensures TriOf(RefEval(host, c, Binary(Or, l, r)))
         == KleeneOr(TriOf(RefEval(host, c, l)), TriOf(RefEval(host, c, r)))
    ensures TriOf(RefEval(host, c, Unary(Not, l))) == NotTri(TriOf(RefEval(host, c, l)))
  {
    hide KleeneAnd, KleeneOr, NotTri, TriOf, TriValue;
    forall t
      ensures TriOf(TriValue(t)) == t
    {
      TriValueKnows(t);
    }
  }

  /** Every condition, whatever AND, OR and NOT it is built from, is in three-valued logic
      what is known of it here. */
  lemma {:induction false} FormulaIsExact(host: Host, c: Context, e: Expr)
    requires Grounded(host, c, e)
    ensures TriOf(RefEval(host, c, e)) == Known(host, c, e)
  {
    match e
    case Paren(inner) =>
      FormulaIsExact(host, c, inner);
    case Binary(op, l, r) =>
      if op == And || op == Or {
        hide RefEval, Eval, KleeneAnd, KleeneOr;
        FormulaIsExact(host, c, l);
        FormulaIsExact(host, c, r);
        LogicIsExact(host, c, l, r);
      } else {
        AtomIsExact(host, c, e);
      }
    case Unary(op, arg) =>
      if op == Not {
        hide RefEval, Eval;
        FormulaIsExact(host, c, arg);
        LogicIsExact(host, c, arg, arg);
      } else {
        AtomIsExact(host, c, e);
      }
    case _ =>
      AtomIsExact(host, c, e);
  }

  /** How AND goes wrong: true beside a NULL on its left, or through a wrong side. */
  lemma AndGoesWrong(host: Host, c: Context, l: Expr, r: Expr)
    ensures var e, v := Binary(And, l, r), Eval(host, c, l);
            && (Wrong(host, c, e) <==>
                && IsTrue(Eval(host, c, e))
                && ((v == Null && !Missed(host, c, l)) || Wrong(host, c, l) || Wrong(host, c, r)))
            && (Missed(host, c, e) <==>
                !IsTrue(Eval(host, c, e)) && Known(host, c, l) == True && Known(host, c, r) == True)
  {
    assert Eval(host, c, Binary(And, l, r)) == EvalAnd(Eval(host, c, l), Eval(host, c, r));
  }

  /** How OR goes wrong: every true side is wrong, and none is missed. */
  lemma OrGoesWrong(host: Host, c: Context, l: Expr, r: Expr)
    ensures var e := Binary(Or, l, r);
            && (Wrong(host, c, e) <==>
                && IsTrue(Eval(host, c, e)) && !Missed(host, c, l) && !Missed(host, c, r)
                && (IsTrue(Eval(host, c, l)) ==> Wrong(host, c, l))
                && (IsTrue(Eval(host, c, r)) ==> Wrong(host, c, r)))
            && (Missed(host, c, e) <==>
                !IsTrue(Eval(host, c, e)) && (Missed(host, c, l) || Missed(host, c, r)))
  {
    assert Eval(host, c, Binary(Or, l, r)) == EvalOr(Eval(host, c, l), Eval(host, c, r));
    assert Known(host, c, Binary(Or, l, r)) == KleeneOr(Known(host, c, l), Known(host, c, r));
    hide Eval, Known;
  }

  /** How NOT goes wrong: its operand is false here and not known to be, or the reverse. */
  lemma NotGoesWrong(host: Host, c: Context, arg: Expr)
    ensures var e, t := Unary(Not, arg), TriOf(Eval(host, c, arg));
            && (Wrong(host, c, e) <==> t == False && Known(host, c, arg) != False)
            && (Missed(host, c, e) <==> t != False && Known(host, c, arg) == False)
  {
    assert Eval(host, c, Unary(Not, arg)) == EvalUnary(host, Not, Eval(host, c, arg));
  }

  /** NOT (TRUE AND NULL) is true on every row, and unknown in three-valued logic. */
  lemma NegatedAndIsWrong(host: Host, c: Context)
    ensures var e := Unary(Not, Binary(And, Literal(Bool(true)), Literal(Null)));
            Wrong(host, c, e) && RefEval(host, c, e) == Null
  {
    var inner := Binary(And, Literal(Bool(true)), Literal(Null));
    NotGoesWrong(host, c, inner);
    assert Grounded(host, c, inner.l) && Grounded(host, c, inner.r);
    assert Grounded(host, c, inner);
    FormulaIsExact(host, c, Unary(Not, inner));
    assert Eval(host, c, inner) == EvalAnd(Eval(host, c, inner.l), Eval(host, c, inner.r));
    assert Known(host, c, inner) == KleeneAnd(Known(host, c, inner.l), Known(host, c, inner.r));
  }

  // ---------- Conditions built from AND and OR ----------

  /** AND, OR and parentheses over atoms free of AND and NOT. */
  predicate PositiveFormula(e: Expr) {
    match e
    case Paren(inner) => PositiveFormula(inner)
    case Binary(op, l, r) =>
      if op == And || op == Or then PositiveFormula(l) && PositiveFormula(r) else LogicFree(e)
    case _ => LogicFree(e)
  }

  /** The same, without OR. */
  predicate Conjunction(e: Expr) {
    match e
    case Paren(inner) => Conjunction(inner)
    case Binary(op, l, r) => if op == And then Conjunction(l) && Conjunction(r) else LogicFree(e)
    case _ => LogicFree(e)
  }

  /** Some AND of the formula has a NULL that is not missed on its left and truth on its right. */
  ghost predicate Leaks(host: Host, c: Context, e: Expr) {
    match e
    case Paren(inner) => Leaks(host, c, inner)
    case Binary(And, l, r) =>
      || Leaks(host, c, l) || Leaks(host, c, r)
      || (Eval(host, c, l) == Null && !Missed(host, c, l) && IsTrue(Eval(host, c, r)))
    case Binary(Or, l, r) => Leaks(host, c, l) || Leaks(host, c, r)
    case _ => false
  }

  lemma {:induction false} LogicFreeQuiet(host: Host, c: Context, e: Expr)
    requires LogicFree(e) && Quiet(host, c, e, false)
    ensures Quiet(host, c, e, true)
    decreases e
  {
    hide Eval, CutShort;
    match e
    case Paren(inner) => LogicFreeQuiet(host, c, inner);
    case Binary(_, l, r) =>
      LogicFreeQuiet(host, c, l);
      LogicFreeQuiet(host, c, r);
    case Unary(_, arg) => LogicFreeQuiet(host, c, arg);
    case IsNull(arg, _) => LogicFreeQuiet(host, c, arg);
    case IsTruth(arg, _, _) => LogicFreeQuiet(host, c, arg);
    case Between(arg, lo, hi, _) =>
      LogicFreeQuiet(host, c, arg);
      LogicFreeQuiet(host, c, lo);
      LogicFreeQuiet(host, c, hi);
    case In(arg, list, _) =>
      LogicFreeQuiet(host, c, arg);
      forall k | 0 <= k < |list|
        ensures Quiet(host, c, list[k], true)
      {
        LogicFreeQuiet(host, c, list[k]);
      }
    case Like(arg, pattern, _) =>
      LogicFreeQuiet(host, c, arg);
      LogicFreeQuiet(host, c, pattern);
    case Regexp(arg, pattern, _) =>
      LogicFreeQuiet(host, c, arg);
      LogicFreeQuiet(host, c, pattern);
    case _ =>
  }

  lemma QuietAtom(host: Host, c: Context, e: Expr)
    requires LogicFree(e) && Quiet(host, c, e, false) && !e.Paren? && !(e.Binary? && e.bop == Or)
    ensures Grounded(host, c, e) && !Wrong(host, c, e) && !Missed(host, c, e)
  {
    LogicFreeQuiet(host, c, e);
    hide Eval, CutShort;
  }

  /** Which sides are true when AND or OR is, and which are not missed when both are known. */
  lemma TrueSides(host: Host, c: Context, l: Expr, r: Expr)
    ensures IsTrue(Eval(host, c, Binary(And, l, r)))
       <==> (IsTrue(Eval(host, c, l)) || Eval(host, c, l) == Null) && IsTrue(Eval(host, c, r))
    ensures IsTrue(Eval(host, c, Binary(Or, l, r))) <==> IsTrue(Eval(host, c, l)) || IsTrue(Eval(host, c, r))
    ensures Known(host, c, l) == True <==> Missed(host, c, l) || (IsTrue(Eval(host, c, l)) && !Wrong(host, c, l))
    ensures Known(host, c, r) == True <==> Missed(host, c, r) || (IsTrue(Eval(host, c, r)) && !Wrong(host, c, r))
  {
    assert Eval(host, c, Binary(And, l, r)) == EvalAnd(Eval(host, c, l), Eval(host, c, r));
    assert Eval(host, c, Binary(Or, l, r)) == EvalOr(Eval(host, c, l), Eval(host, c, r));
  }

  lemma {:induction false} NoLeakIsRight(host: Host, c: Context, e: Expr)
    requires PositiveFormula(e) && !Leaks(host, c, e) && Quiet(host, c, e, false)
    ensures Grounded(host, c, e) && !Wrong(host, c, e) && !Missed(host, c, e)
  {
    match e
    case Paren(inner) =>
      NoLeakIsRight(host, c, inner);
    case Binary(op, l, r) =>
      if op == And || op == Or {
        NoLeakIsRight(host, c, l);
        NoLeakIsRight(host, c, r);
        hide Wrong, Missed, Known, Eval;
        AndGoesWrong(host, c, l, r);
        OrGoesWrong(host, c, l, r);
        TrueSides(host, c, l, r);
      } else {
        QuietAtom(host, c, e);
      }
    case _ =>
      QuietAtom(host, c, e);
  }

  /** Where nothing departs and no AND has NULL on its left, the condition is true exactly
      when three-valued logic finds it true. */
  lemma NoLeakIsExact(host: Host, c: Context, e: Expr)
    requires PositiveFormula(e) && Quiet(host, c, e, false) && !Leaks(host, c, e)
    ensures IsTrue(Eval(host, c, e)) <==> IsTrue(RefEval(host, c, e))
  {
    NoLeakIsRight(host, c, e);
    FormulaIsExact(host, c, e);
  }

  /** Without AND and NOT a condition that is true here is known to be. */
  lemma {:induction false} LogicFreeIsSound(host: Host, c: Context, e: Expr)
    requires LogicFree(e)
    ensures !Leaks(host, c, e) && !Wrong(host, c, e)
  {
    match e
    case Paren(inner) => LogicFreeIsSound(host, c, inner);
    case Binary(op, l, r) =>
      if op == Or {
        LogicFreeIsSound(host, c, l);
        LogicFreeIsSound(host, c, r);
        hide Wrong, Missed, Known, Eval;
        OrGoesWrong(host, c, l, r);
        TrueSides(host, c, l, r);
      }
    case Unary(_, arg) =>
    case _ =>
  }

  /** An AND never answers NULL here, so a NULL conjunct holds no AND. */
  lemma {:induction false} NullConjunctionDoesNotLeak(host: Host, c: Context, e: Expr)
    requires Conjunction(e)
    ensures Eval(host, c, e) == Null ==> !Leaks(host, c, e) && !Wrong(host, c, e)
  {
    match e
    case Paren(inner) => NullConjunctionDoesNotLeak(host, c, inner);
    case Binary(op, l, r) => if op != And { LogicFreeIsSound(host, c, e); }
    case _ =>
  }

  lemma {:induction false} LeakIsWrong(host: Host, c: Context, e: Expr)
    requires Conjunction(e)
    ensures IsTrue(Eval(host, c, e)) ==> (Leaks(host, c, e) <==> Wrong(host, c, e))
  {
    match e
    case Paren(inner) => LeakIsWrong(host, c, inner);
    case Binary(op, l, r) =>
      if op == And {
        LeakIsWrong(host, c, l);
        LeakIsWrong(host, c, r);
        NullConjunctionDoesNotLeak(host, c, l);
        hide Wrong, Missed, Known, Eval;
        AndGoesWrong(host, c, l, r);
        TrueSides(host, c, l, r);
      } else {
        LogicFreeIsSound(host, c, e);
      }
    case _ =>
      LogicFreeIsSound(host, c, e);
  }

  /** For conjunctions the leak alone makes a true condition wrong. */
  lemma ConjunctionIsExact(host: Host, c: Context, e: Expr)
    requires Conjunction(e) && Grounded(host, c, e)
    ensures IsTrue(RefEval(host, c, e))
       <==> if IsTrue(Eval(host, c, e)) then !Leaks(host, c, e) else Missed(host, c, e)
  {
    FormulaIsExact(host, c, e);
    LeakIsWrong(host, c, e);
  }
}
