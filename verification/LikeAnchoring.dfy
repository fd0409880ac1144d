// The compiled pattern is not anchored. Exactly which patterns lose nothing by it?
module LikeAnchoring {
  import opened LikeRegexp

  /** Facts about case folding: a newline folds only with itself, and 'a' not with 'b'. */
  ghost predicate Separates(fold: char -> char) {
    && fold('a') != fold('b')
    && forall c :: fold(c) == fold('\n') ==> c == '\n'
  }

  /** A `%` occurs before the first literal character. */
  predicate LeadOpen(ts: seq<Token>) {
    ts != [] && (ts[0] == AnyRun || (ts[0] == AnyOne && LeadOpen(ts[1..])))
  }

  function Reverse<T>(s: seq<T>): (r: seq<T>)
    ensures |r| == |s|
    ensures forall k :: 0 <= k < |s| ==> r[k] == s[|s| - 1 - k]
    ensures forall x :: x in s ==> x in r
    ensures forall x :: x in r ==> x in s
  {
    var r := seq(|s|, k requires 0 <= k < |s| => s[|s| - 1 - k]);
    assert forall k :: 0 <= k < |s| ==> s[k] == r[|s| - 1 - k];
    r
  }

  /** A pattern loses nothing by being unanchored: it can never match a subject
      without newlines, or a `%` comes before its first and after its last literal. */
  predicate AnchorsItself(ts: seq<Token>) {
    Exactly('\n') in ts || (LeadOpen(ts) && LeadOpen(Reverse(ts)))
  }

  // ---------- Reading backwards ----------

  lemma {:induction false} JoinConcat(a: seq<string>, b: seq<string>)
    ensures Join(a + b) == Join(a) + Join(b)
  {
    if a == [] {
      assert a + b == b;
    } else {
      JoinConcat(a[1..], b);
      assert (a + b)[1..] == a[1..] + b && (a + b)[0] == a[0];
      assert a[0] + (Join(a[1..]) + Join(b)) == Join(a) + Join(b);
    }
  }

  function ReverseAll(pieces: seq<string>): (r: seq<string>)
    ensures |r| == |pieces|
    ensures forall k :: 0 <= k < |pieces| ==> r[k] == Reverse(pieces[|pieces| - 1 - k])
  {
    seq(|pieces|, k requires 0 <= k < |pieces| => Reverse(pieces[|pieces| - 1 - k]))
  }

  lemma ReverseConcat<T>(a: seq<T>, b: seq<T>)
    ensures Reverse(a + b) == Reverse(b) + Reverse(a)
  {
  }

  lemma {:induction false} JoinReversed(pieces: seq<string>)
    ensures Join(ReverseAll(pieces)) == Reverse(Join(pieces))
  {
    if pieces != [] {
      JoinReversed(pieces[1..]);
      assert ReverseAll(pieces) == ReverseAll(pieces[1..]) + [Reverse(pieces[0])];
      JoinConcat(ReverseAll(pieces[1..]), [Reverse(pieces[0])]);
      ReverseConcat(pieces[0], Join(pieces[1..]));
    }
  }

  lemma MatchesReversed(fold: char -> char, lines: bool, ts: seq<Token>, s: string)
    requires LikeMatches(fold, lines, ts, s)
    ensures LikeMatches(fold, lines, Reverse(ts), Reverse(s))
  {
    var pieces :| Cuts(fold, lines, ts, pieces, s);
    JoinReversed(pieces);
    forall k | 0 <= k < |ts|
      ensures Fits(fold, lines, Reverse(ts)[k], ReverseAll(pieces)[k])
    {
      assert Fits(fold, lines, ts[|ts| - 1 - k], pieces[|ts| - 1 - k]);
    }
    assert Cuts(fold, lines, Reverse(ts), ReverseAll(pieces), Reverse(s));
  }

  lemma ReverseTwice<T>(s: seq<T>)
    ensures Reverse(Reverse(s)) == s
  {
  }

  // ---------- Newlines ----------

  lemma {:induction false} PieceWithinJoin(pieces: seq<string>, k: nat)
    requires k < |pieces|
    ensures forall c :: c in pieces[k] ==> c in Join(pieces)
  {
    if k > 0 {
      PieceWithinJoin(pieces[1..], k - 1);
    }
  }

  /** On a subject without newlines it does not matter whether wildcards cover newlines. */
  lemma NoNewlineNoDifference(fold: char -> char, ts: seq<Token>, s: string)
    requires '\n' !in s
    ensures LikeMatches(fold, true, ts, s) <==> LikeMatches(fold, false, ts, s)
  {
    if LikeMatches(fold, true, ts, s) {
      var pieces :| Cuts(fold, true, ts, pieces, s);
      forall k | 0 <= k < |ts|
        ensures Fits(fold, false, ts[k], pieces[k])
      {
        PieceWithinJoin(pieces, k);
      }
      assert Cuts(fold, false, ts, pieces, s);
    }
    if LikeMatches(fold, false, ts, s) {
      var pieces :| Cuts(fold, false, ts, pieces, s);
      assert Cuts(fold, true, ts, pieces, s);
    }
  }

  lemma NewlineLiteralNeedsNewline(fold: char -> char, ts: seq<Token>, s: string)
    requires Separates(fold) && Exactly('\n') in ts && LikeMatches(fold, false, ts, s)
    ensures '\n' in s
  {
    var pieces :| Cuts(fold, false, ts, pieces, s);
    var k :| 0 <= k < |ts| && ts[k] == Exactly('\n');
    assert Fits(fold, false, ts[k], pieces[k]);
    PieceWithinJoin(pieces, k);
    assert pieces[k][0] in s;
  }

  // ---------- Open ends absorb the rest of the subject ----------

  lemma {:induction false} AbsorbOne(fold: char -> char, ts: seq<Token>, c: char, m: string)
    requires LeadOpen(ts) && c != '\n' && '\n' !in m
    requires Consumes(fold, ItemsOf(ts), m)
    ensures Consumes(fold, ItemsOf(ts), [c] + m)
  {
    ItemsOfFirst(ts);
    assert ([c] + m)[1..] == m;
    if ts[0] == AnyOne {
      AbsorbOne(fold, ts[1..], m[0], m[1..]);
      assert m == [m[0]] + m[1..];
    }
  }

  lemma {:induction false} AbsorbFront(fold: char -> char, ts: seq<Token>, x: string, m: string)
    requires LeadOpen(ts) && '\n' !in x && '\n' !in m
    requires LikeMatches(fold, false, ts, m)
    ensures LikeMatches(fold, false, ts, x + m)
  {
    if x == [] {
      assert x + m == m;
    } else {
      AbsorbFront(fold, ts, x[1..], m);
      ConsumesIsLikeMatches(fold, ts, x[1..] + m);
      AbsorbOne(fold, ts, x[0], x[1..] + m);
      assert [x[0]] + (x[1..] + m) == x + m;
      ConsumesIsLikeMatches(fold, ts, x + m);
    }
  }

  lemma AbsorbBack(fold: char -> char, ts: seq<Token>, m: string, y: string)
    requires LeadOpen(Reverse(ts)) && '\n' !in m && '\n' !in y
    requires LikeMatches(fold, false, ts, m)
    ensures LikeMatches(fold, false, ts, m + y)
  {
    MatchesReversed(fold, false, ts, m);
    AbsorbFront(fold, Reverse(ts), Reverse(y), Reverse(m));
    MatchesReversed(fold, false, Reverse(ts), Reverse(y) + Reverse(m));
    ReverseConcat(Reverse(y), Reverse(m));
    ReverseTwice(ts);
    ReverseTwice(m);
    ReverseTwice(y);
  }

  // ---------- Closed ends are overrun ----------

  function SampleOf(fill: string, t: Token): string {
    match t case AnyRun => fill case AnyOne => "a" case Exactly(c) => [c]
  }

  /** A text the pattern matches, with `fill` for every `%`. */
  function Sample(fill: string, ts: seq<Token>): string {
    if ts == [] then "" else SampleOf(fill, ts[0]) + Sample(fill, ts[1..])
  }

  lemma {:induction false} SampleMatches(fold: char -> char, fill: string, ts: seq<Token>)
    requires '\n' !in fill
    ensures LikeMatches(fold, false, ts, Sample(fill, ts))
    ensures Exactly('\n') !in ts ==> '\n' !in Sample(fill, ts)
  {
    if ts == [] {
      assert Cuts(fold, false, ts, [], "");
    } else {
      SampleMatches(fold, fill, ts[1..]);
      var rest :| Cuts(fold, false, ts[1..], rest, Sample(fill, ts[1..]));
      assert Cuts(fold, false, ts, [SampleOf(fill, ts[0])] + rest, Sample(fill, ts));
    }
  }

  function LeadingOnes(ts: seq<Token>): nat {
    if ts != [] && ts[0] == AnyOne then 1 + LeadingOnes(ts[1..]) else 0
  }

  /** The literal after the leading `_`s, or any character when there is none. */
  function FirstLiteral(ts: seq<Token>): char {
    if ts == [] || ts[0] == AnyRun then 'a'
    else if ts[0] == AnyOne then FirstLiteral(ts[1..])
    else ts[0].c
  }

  lemma NothingMatched(fold: char -> char, lines: bool, s: string)
    requires LikeMatches(fold, lines, [], s)
    ensures s == ""
  {
  }

  lemma {:induction false} Overrun(fold: char -> char, ts: seq<Token>, d: char, s: string)
    requires !LeadOpen(ts) && fold(d) != fold(FirstLiteral(ts))
    requires |s| > LeadingOnes(ts) && forall k :: 0 <= k <= LeadingOnes(ts) ==> s[k] == d
    ensures !LikeMatches(fold, true, ts, s)
  {
    hide LikeMatches;
    if LikeMatches(fold, true, ts, s) {
      if ts == [] {
        NothingMatched(fold, true, s);
      } else {
        var piece, rest := FirstPiece(fold, true, ts, s);
        assert piece[0] == s[0];
        if ts[0] == AnyOne {
          assert rest == s[1..];
          Overrun(fold, ts[1..], d, rest);
        }
      }
    }
  }

  /** A pattern closed at the front matches some tail of a subject it does not match. */
  lemma ClosedFrontWitness(fold: char -> char, ts: seq<Token>) returns (pad: string, m: string)
    requires Separates(fold) && !LeadOpen(ts)
    ensures Exactly('\n') !in ts ==> '\n' !in pad + m
    ensures LikeMatches(fold, false, ts, m) && !LikeMatches(fold, true, ts, pad + m)
  {
    var d := if fold('a') != fold(FirstLiteral(ts)) then 'a' else 'b';
    pad := seq(LeadingOnes(ts) + 1, _ => d);
    m := Sample("", ts);
    SampleMatches(fold, "", ts);
    Overrun(fold, ts, d, pad + m);
  }

  /** A pattern closed at the back matches some head of a subject it does not match. */
  lemma ClosedBackWitness(fold: char -> char, ts: seq<Token>) returns (m: string, pad: string)
    requires Separates(fold) && !LeadOpen(Reverse(ts))
    ensures Exactly('\n') !in ts ==> '\n' !in m + pad
    ensures LikeMatches(fold, false, ts, m) && !LikeMatches(fold, true, ts, m + pad)
  {
    var rpad, rm := ClosedFrontWitness(fold, Reverse(ts));
    m, pad := Reverse(rm), Reverse(rpad);
    ReverseTwice(ts);
    MatchesReversed(fold, false, Reverse(ts), rm);
    ReverseConcat(m, pad);
    ReverseTwice(rm);
    ReverseTwice(rpad);
    assert Exactly('\n') !in ts ==> '\n' !in rpad + rm;
    if LikeMatches(fold, true, ts, m + pad) {
      MatchesReversed(fold, true, ts, m + pad);
    }
  }

  // ---------- Results ----------

  lemma FindsStretch(fold: char -> char, ts: seq<Token>, s: string, i: nat, j: nat)
    requires i <= j <= |s| && LikeMatches(fold, false, ts, s[i..j])
    ensures Finds(fold, ItemsOf(ts), s)
  {
    ConsumesIsLikeMatches(fold, ts, s[i..j]);
  }

  /** Searching never misses a subject that LIKE, meant for the whole string, accepts. */
  lemma SearchNeverMisses(fold: char -> char, ts: seq<Token>, s: string)
    requires '\n' !in s && LikeMatches(fold, true, ts, s)
    ensures Finds(fold, ItemsOf(ts), s)
  {
    NoNewlineNoDifference(fold, ts, s);
    assert s[0..|s|] == s;
    FindsStretch(fold, ts, s, 0, |s|);
  }

  lemma SelfAnchoredIsWhole(fold: char -> char, ts: seq<Token>, s: string)
    requires Separates(fold) && AnchorsItself(ts) && '\n' !in s && Finds(fold, ItemsOf(ts), s)
    ensures LikeMatches(fold, true, ts, s)
  {
    var i, j :| 0 <= i <= j <= |s| && Consumes(fold, ItemsOf(ts), s[i..j]);
    ConsumesIsLikeMatches(fold, ts, s[i..j]);
    assert Exactly('\n') !in ts by {
      if Exactly('\n') in ts {
        NewlineLiteralNeedsNewline(fold, ts, s[i..j]);
      }
    }
    AbsorbFront(fold, ts, s[..i], s[i..j]);
    assert s[..i] + s[i..j] == s[..j];
    AbsorbBack(fold, ts, s[..j], s[j..]);
    assert s[..j] + s[j..] == s;
    NoNewlineNoDifference(fold, ts, s);
  }

  /** A pattern not open at both ends accepts some subject it should reject. */
  lemma UnanchoredWitness(fold: char -> char, ts: seq<Token>) returns (s: string)
    requires Separates(fold) && !(LeadOpen(ts) && LeadOpen(Reverse(ts)))
    ensures Exactly('\n') !in ts ==> '\n' !in s
    ensures Finds(fold, ItemsOf(ts), s) && !LikeMatches(fold, true, ts, s)
  {
    if !LeadOpen(ts) {
      var pad, m := ClosedFrontWitness(fold, ts);
      s := pad + m;
      assert s[|pad|..|s|] == m;
      FindsStretch(fold, ts, s, |pad|, |s|);
    } else {
      var m, pad := ClosedBackWitness(fold, ts);
      s := m + pad;
      assert s[0..|m|] == m;
      FindsStretch(fold, ts, s, 0, |m|);
    }
  }

  /** Unanchored search is whole-string LIKE on every newline-free subject if and only
      if the pattern anchors itself. */
  lemma AnchoringIsExact(fold: char -> char, pattern: string)
    requires Separates(fold)
    ensures Compile(LikeText(pattern)).Some?
    ensures (forall s: string :: '\n' !in s ==>
               (Finds(fold, Compile(LikeText(pattern)).value, s) <==> LikeMatches(fold, true, Tokens(pattern), s)))
       <==> AnchorsItself(Tokens(pattern))
  {
    var ts := Tokens(pattern);
    CompiledTokens(pattern);
    if AnchorsItself(ts) {
      forall s: string | '\n' !in s
        ensures Finds(fold, ItemsOf(ts), s) <==> LikeMatches(fold, true, ts, s)
      {
        if LikeMatches(fold, true, ts, s) {
          SearchNeverMisses(fold, ts, s);
        } else if Finds(fold, ItemsOf(ts), s) {
          SelfAnchoredIsWhole(fold, ts, s);
        }
      }
    } else {
      var s := UnanchoredWitness(fold, ts);
    }
  }
}
