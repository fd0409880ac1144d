// SQL values as the evaluator sees them, their truth value and their order.
module Values {
  import opened Common

  const TWO_63: int := 0x8000_0000_0000_0000
  const TWO_64: int := 0x1_0000_0000_0000_0000

  type Int64 = i: int | -TWO_63 <= i < TWO_63

  type Uint64 = u: int | 0 <= u < TWO_64

  /** A floating-point number. Finite ones are exact reals: rounding is not modelled. */
  datatype Number = NaN | NegInf | Finite(r: real) | PosInf

  /** The dynamic types a cell or a literal can have. Strings are Go strings: each
      character stands for one byte. `Opaque` is any type the evaluator has no case for. */
  datatype Value =
    | Null
    | Bool(b: bool)
    | SignedInt(i: Int64)
    | UnsignedInt(u: Uint64)
    | Float(f: Number)
    | Text(s: string)
    | Bytes(bs: string)
    | Opaque(tag: string)

  type Row = seq<Value>

  datatype ArithOp = Plus | Minus | Mul | Div | Mod

  /** Library calls whose code lies outside the repository, as arbitrary functions. */
  datatype Host = Host(
    parseNumber: string -> Option<Number>,          // TrimSpace, then ParseFloat
    show: Value -> string,                          // Sprintf("%v", ...)
    lower: string -> string,                        // strings.ToLower
    runes: string -> string,                        // the runes a byte string decodes to
    fold: char -> char,                             // representative of a rune's case-folding class
    regexp: (string, string) -> Option<bool>,       // MatchString; None when the text does not compile
    arith: (ArithOp, Number, Number) -> Number,     // float64 arithmetic
    space: char -> bool,                            // unicode.IsSpace
    upper: char -> char,                            // unicode.ToUpper
    utf8: string -> string,                         // the text with invalid UTF-8 replaced, as JSON carries it
    foreign: Value -> Option<string>,               // json.Marshal of dates, lists and mappings
    reread: string -> Value,                        // json.Unmarshal of what they became
    encodes: seq<Row> -> bool)                      // BuildSimpleResultset accepts the rows

  datatype Tri = False | True | Unknown

  function TriOf(v: Value): Tri {
    match v
    case Null => Unknown
    case Bool(b) => if b then True else False
    case SignedInt(i) => if i != 0 then True else False
    case UnsignedInt(u) => if u != 0 then True else False
    case Float(f) => if f != Finite(0.0) then True else False
    case Text(s) => if s != "" then True else False
    case Bytes(s) => if s != "" then True else False
    case Opaque(_) => True
  }

  function NotTri(t: Tri): Tri {
    match t
    case True => False
    case False => True
    case Unknown => Unknown
  }

  function ToNumber(host: Host, v: Value): Option<Number> {
    match v
    case SignedInt(i) => Some(Finite(i as real))
    case UnsignedInt(u) => Some(Finite(u as real))
    case Float(f) => Some(f)
    case Text(s) => host.parseNumber(s)
    case _ => None
  }

  function TextOf(host: Host, v: Value): string {
    match v
    case Text(s) => s
    case Bytes(s) => s
    case _ => host.show(v)
  }

  // ---------- Order ----------

  /** The comparison `<` on floating-point numbers: never true of NaN. */
  predicate Below(a: Number, b: Number) {
    match (a, b)
    case (NaN, _) => false
    case (_, NaN) => false
    case (Finite(x), Finite(y)) => x < y
    case (NegInf, _) => b != NegInf
    case (Finite(_), _) => b == PosInf
    case (PosInf, _) => false
  }

  function CompareNumbers(a: Number, b: Number): int {
    if Below(a, b) then -1 else if Below(b, a) then 1 else 0
  }

  /** Lexicographic three-way comparison, a proper prefix coming first. */
  function CompareText(a: string, b: string): int {
    if a == [] then (if b == [] then 0 else -1)
    else if b == [] then 1
    else if a[0] < b[0] then -1
    else if b[0] < a[0] then 1
    else CompareText(a[1..], b[1..])
  }

  function CompareValues(host: Host, a: Value, b: Value): int {
    if a == Null && b == Null then 0
    else if a == Null then -1
    else if b == Null then 1
    else
      match (ToNumber(host, a), ToNumber(host, b))
      case (Some(x), Some(y)) => CompareNumbers(x, y)
      case _ => CompareText(host.lower(TextOf(host, a)), host.lower(TextOf(host, b)))
  }

  lemma {:induction false} CompareTextAntisymmetric(a: string, b: string)
    ensures CompareText(a, b) == -CompareText(b, a)
    ensures CompareText(a, b) == 0 <==> a == b
  {
    if a != [] && b != [] && a[0] == b[0] {
      CompareTextAntisymmetric(a[1..], b[1..]);
      assert a == [a[0]] + a[1..] && b == [b[0]] + b[1..];
    }
  }

  lemma {:induction false} CompareTextTransitive(a: string, b: string, c: string)
    requires CompareText(a, b) <= 0 && CompareText(b, c) <= 0
    ensures CompareText(a, c) <= 0
  {
    if a != [] && b != [] && c != [] && a[0] == b[0] == c[0] {
      CompareTextTransitive(a[1..], b[1..], c[1..]);
    }
  }

  lemma {:induction false} CompareTextRange(a: string, b: string)
    ensures -1 <= CompareText(a, b) <= 1
  {
    if a != [] && b != [] {
      CompareTextRange(a[1..], b[1..]);
    }
  }

  /** Swapping the operands of a comparison flips its sign, for all values, NaN included. */
  lemma CompareAntisymmetric(host: Host, a: Value, b: Value)
    ensures CompareValues(host, a, b) == -CompareValues(host, b, a)
    ensures -1 <= CompareValues(host, a, b) <= 1
  {
    CompareTextAntisymmetric(host.lower(TextOf(host, a)), host.lower(TextOf(host, b)));
    CompareTextRange(host.lower(TextOf(host, a)), host.lower(TextOf(host, b)));
  }

  /** What is unknown, false and true: NULL; a number that compares equal to zero, a false
      boolean, an empty text; and everything else, the text "0" and NaN included. */
  lemma TruthOfValues(host: Host, v: Value)
    ensures TriOf(v) == Unknown <==> v == Null
    ensures v.SignedInt? || v.UnsignedInt? || (v.Float? && v.f != NaN) ==>
      (TriOf(v) == False <==> CompareValues(host, v, SignedInt(0)) == 0)
    ensures v.Bool? || v.Text? || v.Bytes? ==> (TriOf(v) == False <==> v in {Bool(false), Text(""), Bytes("")})
    ensures v.Opaque? || v == Float(NaN) ==> TriOf(v) == True
  {
  }

  /** Negation turns true and false around and leaves what is unknown. */
  lemma NotTriTurns(t: Tri)
    ensures NotTri(NotTri(t)) == t && (NotTri(t) == t <==> t == Unknown)
  {
  }

  /** `a` comes first at the first difference, or ends there. */
  predicate DiffersAt(a: string, b: string, k: nat) {
    && k <= |a| && k < |b| && a[..k] == b[..k]
    && (k == |a| || a[k] < b[k])
  }

  /** Texts compare by their first different character, a proper prefix coming first. */
  lemma {:induction false} TextsCompare(a: string, b: string)
    ensures CompareText(a, b) < 0 <==> exists k: nat :: DiffersAt(a, b, k)
  {
    forall k: nat | DiffersAt(a, b, k)
      ensures k == 0 || (a != [] && b != [] && a[0] == b[0])
    {
      assert k > 0 ==> a[0] == a[..k][0] == b[..k][0] == b[0];
    }
    if a != [] && b != [] && a[0] == b[0] {
      TextsCompare(a[1..], b[1..]);
      if k: nat :| DiffersAt(a[1..], b[1..], k) {
        assert a[..k + 1] == [a[0]] + a[1..][..k] && b[..k + 1] == [b[0]] + b[1..][..k];
        assert DiffersAt(a, b, k + 1);
      }
      if k: nat :| DiffersAt(a, b, k) {
        assert k > 0;
        assert a[1..][..k - 1] == a[..k][1..] && b[1..][..k - 1] == b[..k][1..];
        assert DiffersAt(a[1..], b[1..], k - 1);
      }
    } else if CompareText(a, b) < 0 {
      assert DiffersAt(a, b, 0);
    }
  }

  /** Numbers of whatever kind compare as numbers: infinities at the ends, NaN equal to all. */
  lemma NumbersCompare(host: Host, a: Value, b: Value)
    requires ToNumber(host, a).Some? && ToNumber(host, b).Some?
    ensures var x, y := ToNumber(host, a).value, ToNumber(host, b).value;
            && (x.Finite? && y.Finite? ==> (CompareValues(host, a, b) < 0 <==> x.r < y.r))
            && (x == NegInf && y != NaN ==> (CompareValues(host, a, b) < 0 <==> y != NegInf))
            && (y == PosInf && x != NaN ==> (CompareValues(host, a, b) < 0 <==> x != PosInf))
            && (x == NaN || y == NaN ==> CompareValues(host, a, b) == 0)
  {
  }

  /** Which values are numbers: integers and floats as they stand, and texts that parse as
      one; no boolean, no byte string, and nothing else. */
  lemma WhatIsANumber(host: Host, v: Value)
    ensures v.SignedInt? ==> ToNumber(host, v) == Some(Finite(v.i as real))
    ensures v.UnsignedInt? ==> ToNumber(host, v) == Some(Finite(v.u as real))
    ensures v.Float? ==> ToNumber(host, v) == Some(v.f)
    ensures v.Text? ==> ToNumber(host, v) == host.parseNumber(v.s)
    ensures v.Null? || v.Bool? || v.Bytes? || v.Opaque? ==> ToNumber(host, v) == None
  {
  }

  /** A boolean, a byte string or any other value that is no number compares by lower-cased
      texts, whatever it is compared with: texts and byte strings by their own text, the
      others as they print. */
  lemma OthersCompareAsTexts(host: Host, a: Value, b: Value)
    requires a != Null && b != Null
    requires a.Bool? || a.Bytes? || a.Opaque? || (a.Text? && host.parseNumber(a.s) == None)
    ensures var x := host.lower(if a.Text? then a.s else if a.Bytes? then a.bs else host.show(a));
            var y := host.lower(if b.Text? then b.s else if b.Bytes? then b.bs else host.show(b));
            && (CompareValues(host, a, b) < 0 <==> exists k: nat :: DiffersAt(x, y, k))
            && (CompareValues(host, a, b) == 0 <==> x == y)
  {
    var x := host.lower(if a.Text? then a.s else if a.Bytes? then a.bs else host.show(a));
    var y := host.lower(if b.Text? then b.s else if b.Bytes? then b.bs else host.show(b));
    TextsCompare(x, y);
    CompareTextAntisymmetric(x, y);
  }

  predicate Numeric(host: Host, v: Value) {
    v == Null || (ToNumber(host, v).Some? && ToNumber(host, v) != Some(NaN))
  }

  predicate Textual(host: Host, v: Value) {
    v == Null || ToNumber(host, v).None?
  }

  /** NULLs beside numbers only, or NULLs beside non-numbers only. */
  ghost predicate Homogeneous(host: Host, vs: iset<Value>) {
    || (forall v :: v in vs ==> Numeric(host, v))
    || (forall v :: v in vs ==> Textual(host, v))
  }

  /** The text a value is compared by when either side is no number. */
  function SortText(host: Host, v: Value): string {
    host.lower(TextOf(host, v))
  }

  predicate IsNumber(host: Host, v: Value) {
    ToNumber(host, v).Some?
  }

  /** The text of `t`, no number, lies between the texts of two numbers that the order of
      texts turns around: as numbers `x` comes no later than `y`, as texts no earlier. */
  predicate Straddles(host: Host, x: Value, t: Value, y: Value) {
    && IsNumber(host, x) && IsNumber(host, y) && t != Null && !IsNumber(host, t)
    && CompareValues(host, x, y) <= 0
    && CompareText(SortText(host, y), SortText(host, t)) <= 0
    && CompareText(SortText(host, t), SortText(host, x)) <= 0
    && (CompareValues(host, x, y) < 0 || SortText(host, x) != SortText(host, y))
  }

  /** NaN, which ties with every number, stands beside two numbers that differ. */
  predicate NaNSplits(host: Host, n: Value, x: Value, y: Value) {
    ToNumber(host, n) == Some(NaN) && IsNumber(host, x) && IsNumber(host, y) && CompareValues(host, x, y) < 0
  }

  /** No text straddles two numbers, and NaN splits none. */
  ghost predicate Orderable(host: Host, vs: iset<Value>) {
    && (forall x, t, y :: x in vs && t in vs && y in vs ==> !Straddles(host, x, t, y))
    && (forall n, x, y :: n in vs && x in vs && y in vs ==> !NaNSplits(host, n, x, y))
  }

  predicate Chains(host: Host, a: Value, b: Value, c: Value) {
    CompareValues(host, a, b) <= 0 && CompareValues(host, b, c) <= 0 ==> CompareValues(host, a, c) <= 0
  }

  ghost predicate Transitive(host: Host, vs: iset<Value>) {
    forall a, b, c :: a in vs && b in vs && c in vs ==> Chains(host, a, b, c)
  }

  function Numbers(host: Host, a: Value, b: Value, c: Value): nat {
    (if IsNumber(host, a) then 1 else 0) + (if IsNumber(host, b) then 1 else 0) + (if IsNumber(host, c) then 1 else 0)
  }

  lemma NumbersChain(host: Host, vs: iset<Value>, a: Value, b: Value, c: Value)
    requires Orderable(host, vs) && a in vs && b in vs && c in vs
    requires Numbers(host, a, b, c) == 3
    ensures Chains(host, a, b, c)
  {
    assert !NaNSplits(host, b, c, a);
  }

  lemma TextsChain(host: Host, a: Value, b: Value, c: Value)
    requires a != Null && b != Null && c != Null
    requires Numbers(host, a, b, c) <= 1
    ensures Chains(host, a, b, c)
  {
    if CompareValues(host, a, b) <= 0 && CompareValues(host, b, c) <= 0 {
      CompareTextTransitive(SortText(host, a), SortText(host, b), SortText(host, c));
    }
  }

  /** Two numbers and a text, in whatever order: a broken chain is a straddling text. */
  lemma MixedChain(host: Host, vs: iset<Value>, a: Value, b: Value, c: Value)
    requires Orderable(host, vs) && a in vs && b in vs && c in vs
    requires a != Null && b != Null && c != Null
    requires Numbers(host, a, b, c) == 2
    ensures Chains(host, a, b, c)
  {
    var x, y, z := SortText(host, a), SortText(host, b), SortText(host, c);
    CompareTextAntisymmetric(x, y);
    CompareTextAntisymmetric(y, z);
    CompareTextAntisymmetric(x, z);
    if !IsNumber(host, a) {
      assert !Straddles(host, b, a, c);
    } else if !IsNumber(host, b) {
      CompareAntisymmetric(host, a, c);
      assert !Straddles(host, c, b, a);
    } else {
      assert !Straddles(host, a, c, b);
    }
  }

  /** A straddling text breaks a chain one way or another. */
  lemma StraddleBreaks(host: Host, x: Value, t: Value, y: Value)
    requires Straddles(host, x, t, y)
    ensures !Chains(host, y, t, x) || !Chains(host, t, x, y) || !Chains(host, x, y, t)
  {
    CompareAntisymmetric(host, x, y);
    CompareTextAntisymmetric(SortText(host, y), SortText(host, t));
    CompareTextAntisymmetric(SortText(host, t), SortText(host, x));
    CompareTextAntisymmetric(SortText(host, x), SortText(host, y));
  }

  lemma NaNBreaks(host: Host, n: Value, x: Value, y: Value)
    requires NaNSplits(host, n, x, y)
    ensures !Chains(host, y, n, x)
  {
  }

  lemma OrderableChains(host: Host, vs: iset<Value>, a: Value, b: Value, c: Value)
    requires Orderable(host, vs) && a in vs && b in vs && c in vs
    ensures Chains(host, a, b, c)
  {
    hide Orderable, IsNumber, SortText;
    if a == Null || b == Null || c == Null {
    } else if Numbers(host, a, b, c) == 3 {
      NumbersChain(host, vs, a, b, c);
    } else if Numbers(host, a, b, c) == 2 {
      MixedChain(host, vs, a, b, c);
    } else {
      TextsChain(host, a, b, c);
    }
  }

  /** The comparison is transitive on a set of values exactly when the set is orderable. */
  lemma TransitiveExactly(host: Host, vs: iset<Value>)
    ensures Transitive(host, vs) <==> Orderable(host, vs)
  {
    hide Chains, Straddles, NaNSplits, CompareValues;
    if Orderable(host, vs) {
      forall a, b, c | a in vs && b in vs && c in vs
        ensures Chains(host, a, b, c)
      {
        OrderableChains(host, vs, a, b, c);
      }
    } else if x, t, y :| x in vs && t in vs && y in vs && Straddles(host, x, t, y) {
      StraddleBreaks(host, x, t, y);
    } else {
      var n, x, y :| n in vs && x in vs && y in vs && NaNSplits(host, n, x, y);
      NaNBreaks(host, n, x, y);
    }
  }

  /** Columns that do not mix numbers with other texts are orderable. */
  lemma HomogeneousIsOrderable(host: Host, vs: iset<Value>)
    requires Homogeneous(host, vs)
    ensures Orderable(host, vs)
  {
    if forall v :: v in vs ==> Numeric(host, v) {
      forall x, t, y | x in vs && t in vs && y in vs
        ensures !Straddles(host, x, t, y) && !NaNSplits(host, t, x, y)
      {
        assert Numeric(host, t);
      }
    } else {
      forall x, t, y | x in vs && t in vs && y in vs
        ensures !Straddles(host, x, t, y) && !NaNSplits(host, t, x, y)
      {
        assert Textual(host, x);
      }
    }
  }

  /** On orderable values the comparison is a total preorder with NULL strictly least. */
  lemma ComparePreorder(host: Host, vs: iset<Value>, a: Value, b: Value, c: Value)
    requires Orderable(host, vs) && a in vs && b in vs && c in vs
    ensures CompareValues(host, a, b) <= 0 && CompareValues(host, b, c) <= 0 ==> CompareValues(host, a, c) <= 0
    ensures CompareValues(host, a, b) <= 0 || CompareValues(host, b, a) <= 0
    ensures CompareValues(host, Null, a) <= 0
    ensures CompareValues(host, Null, a) == 0 <==> a == Null
  {
    hide Orderable;
    OrderableChains(host, vs, a, b, c);
    CompareAntisymmetric(host, a, b);
  }

  /** Both clauses occur: "1a" straddles "2" and "10", and NaN splits 0 and 1. */
  lemma CompareCycles(host: Host)
    requires host.parseNumber("2") == Some(Finite(2.0)) && host.parseNumber("10") == Some(Finite(10.0))
    requires host.parseNumber("1a") == None
    requires host.lower("2") == "2" && host.lower("10") == "10" && host.lower("1a") == "1a"
    ensures Straddles(host, Text("2"), Text("1a"), Text("10"))
    ensures NaNSplits(host, Float(NaN), Float(Finite(0.0)), Float(Finite(1.0)))
    ensures !Transitive(host, iset{Text("2"), Text("1a"), Text("10")})
    ensures !Transitive(host, iset{Float(NaN), Float(Finite(0.0)), Float(Finite(1.0))})
  {
    var mixed, nan := iset{Text("2"), Text("1a"), Text("10")}, iset{Float(NaN), Float(Finite(0.0)), Float(Finite(1.0))};
    assert CompareText("10", "1a") == CompareText("10"[1..], "1a"[1..]);
    assert Straddles(host, Text("2"), Text("1a"), Text("10"));
    assert NaNSplits(host, Float(NaN), Float(Finite(0.0)), Float(Finite(1.0)));
    TransitiveExactly(host, mixed);
    TransitiveExactly(host, nan);
  }
}
