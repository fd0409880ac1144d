// A dot covers no newline, so the compiled pattern can miss subjects of several lines.
// Exactly which patterns agree with LIKE on those too?
module LikeNewlines {
  import opened Common
  import opened LikeRegexp
  import opened LikeAnchoring

  predicate IsNewline(c: char) {
    c == '\n'
  }

  predicate HasLetter(ts: seq<Token>) {
    exists k :: 0 <= k < |ts| && ts[k].Exactly? && ts[k].c != '\n'
  }

  predicate PairAt(ts: seq<Token>, k: int) {
    0 <= k < |ts| - 1 && ts[k] == ts[k + 1] == Exactly('\n')
  }

  predicate HasPair(ts: seq<Token>) {
    exists k :: 0 <= k < |ts| && PairAt(ts, k)
  }

  /** The literals are more than lone newlines: one is no newline, or two stand together. */
  predicate Rich(ts: seq<Token>) {
    HasLetter(ts) || HasPair(ts)
  }

  /** No `_`, and every `%` has only lone newlines, if any literal, on one of its sides. */
  predicate OneStretch(ts: seq<Token>) {
    AnyOne !in ts && forall k :: 0 <= k < |ts| && ts[k] == AnyRun ==> !Rich(ts[..k]) || !Rich(ts[k + 1..])
  }

  // ---------- Counting ----------

  function Count(p: char -> bool, s: string): nat {
    |Filter(p, s)|
  }

  lemma CountConcat(p: char -> bool, a: string, b: string)
    ensures Count(p, a + b) == Count(p, a) + Count(p, b)
  {
    FilterConcat(p, a, b);
  }

  lemma CountOne(p: char -> bool, c: char)
    ensures Count(p, [c]) == if p(c) then 1 else 0
  {
    FilterAppend(p, [], c);
    assert [] + [c] == [c];
  }

  lemma CountNone(p: char -> bool, s: string)
    ensures Count(p, s) == 0 <==> forall c :: c in s ==> !p(c)
  {
    if forall c :: c in s ==> !p(c) {
      NothingKept(p, s);
    }
  }

  lemma {:induction false} CountReversed(p: char -> bool, s: string)
    ensures Count(p, Reverse(s)) == Count(p, s)
  {
    if s != [] {
      var init, last := s[..|s| - 1], s[|s| - 1];
      CountReversed(p, init);
      ReverseConcat(init, [last]);
      assert Reverse([last]) == [last] && s == init + [last];
      CountConcat(p, init, [last]);
      CountConcat(p, [last], Reverse(init));
    }
  }

  lemma {:induction false} NewlinesAmong(p: char -> bool, s: string)
    requires p('\n')
    ensures Count(IsNewline, s) <= Count(p, s)
  {
    if s != [] {
      var init, last := s[..|s| - 1], s[|s| - 1];
      NewlinesAmong(p, init);
      assert s == init + [last];
      CountConcat(p, init, [last]);
      CountConcat(IsNewline, init, [last]);
      CountOne(p, last);
      CountOne(IsNewline, last);
    }
  }

  lemma CountParts(p: char -> bool, s: string, i: nat, j: nat)
    requires i <= j <= |s|
    ensures Count(p, s) == Count(p, s[..i]) + Count(p, s[i..j]) + Count(p, s[j..])
    ensures Count(p, s[..j]) == Count(p, s[..i]) + Count(p, s[i..j])
  {
    assert s == s[..j] + s[j..] && s[..j] == s[..i] + s[i..j];
    CountConcat(p, s[..j], s[j..]);
    CountConcat(p, s[..i], s[i..j]);
  }

  lemma CountGrows(p: char -> bool, s: string, i: nat, j: nat)
    requires i < j <= |s| && p(s[i])
    ensures Count(p, s[..i]) < Count(p, s[..j])
  {
    hide Count;
    CountParts(p, s, i, i + 1);
    CountParts(p, s, i + 1, j);
    assert s[i..i + 1] == [s[i]];
    CountOne(p, s[i]);
  }

  /** A marked character is found by the number of marked characters before it. */
  lemma SamePosition(p: char -> bool, s: string, i: nat, j: nat)
    requires i < |s| && j < |s| && p(s[i]) && p(s[j]) && Count(p, s[..i]) == Count(p, s[..j])
    ensures i == j
  {
    if i < j {
      CountGrows(p, s, i, j);
    } else if j < i {
      CountGrows(p, s, j, i);
    }
  }

  // ---------- What a match takes ----------

  function NeedsOf(p: char -> bool, ones: bool, t: Token): nat {
    match t
    case AnyRun => 0
    case AnyOne => if ones then 1 else 0
    case Exactly(c) => if p(c) then 1 else 0
  }

  /** How many marked characters the tokens ask for; `ones` says whether `_` asks for one. */
  function Needs(p: char -> bool, ones: bool, ts: seq<Token>): nat {
    if ts == [] then 0 else NeedsOf(p, ones, ts[0]) + Needs(p, ones, ts[1..])
  }

  lemma {:induction false} NeedsConcat(p: char -> bool, ones: bool, a: seq<Token>, b: seq<Token>)
    ensures Needs(p, ones, a + b) == Needs(p, ones, a) + Needs(p, ones, b)
  {
    if a == [] {
      assert a + b == b;
    } else {
      assert (a + b)[1..] == a[1..] + b && (a + b)[0] == a[0];
      NeedsConcat(p, ones, a[1..], b);
    }
  }

  /** Case folding keeps marks. */
  ghost predicate KeepsMarks(fold: char -> char, p: char -> bool) {
    forall c, d :: fold(c) == fold(d) ==> p(c) == p(d)
  }

  lemma {:induction false} TakesNeeds(
    fold: char -> char, lines: bool, p: char -> bool, ones: bool, ts: seq<Token>, m: string)
    requires KeepsMarks(fold, p) && (ones ==> forall c :: p(c)) && LikeMatches(fold, lines, ts, m)
    ensures Count(p, m) >= Needs(p, ones, ts)
  {
    hide LikeMatches, Count;
    if ts != [] {
      var piece, rest := FirstPiece(fold, lines, ts, m);
      TakesNeeds(fold, lines, p, ones, ts[1..], rest);
      CountConcat(p, piece, rest);
      if ts[0] != AnyRun {
        assert piece == [piece[0]];
        CountOne(p, piece[0]);
      }
    }
  }

  /** When dots cover no newline, the newlines taken are the newline literals. */
  lemma {:induction false} TakesNewlines(fold: char -> char, ts: seq<Token>, m: string)
    requires Separates(fold) && LikeMatches(fold, false, ts, m)
    ensures Count(IsNewline, m) == Needs(IsNewline, false, ts)
  {
    hide LikeMatches, Count;
    if ts == [] {
      NothingMatched(fold, false, m);
      CountNone(IsNewline, m);
    } else {
      var piece, rest := FirstPiece(fold, false, ts, m);
      TakesNewlines(fold, ts[1..], rest);
      CountConcat(IsNewline, piece, rest);
      CountNone(IsNewline, piece);
      if ts[0] != AnyRun {
        assert piece == [piece[0]];
        CountOne(IsNewline, piece[0]);
      }
    }
  }

  lemma {:induction false} SplitMatch(fold: char -> char, lines: bool, a: seq<Token>, b: seq<Token>, m: string)
    returns (i: nat)
    requires LikeMatches(fold, lines, a + b, m)
    ensures i <= |m| && LikeMatches(fold, lines, a, m[..i]) && LikeMatches(fold, lines, b, m[i..])
  {
    if a == [] {
      i := 0;
      assert a + b == b && m[0..] == m;
      assert Cuts(fold, lines, a, [], m[..0]);
    } else {
      hide LikeMatches;
      var piece, rest := FirstPiece(fold, lines, a + b, m);
      assert (a + b)[1..] == a[1..] + b && (a + b)[0] == a[0];
      var j := SplitMatch(fold, lines, a[1..], b, rest);
      i := |piece| + j;
      OnePieceMore(fold, lines, a, piece, rest[..j]);
      assert m[..i] == piece + rest[..j] && m[i..] == rest[j..];
    }
  }

  lemma JoinMatch(fold: char -> char, lines: bool, a: seq<Token>, b: seq<Token>, s: string, t: string)
    requires LikeMatches(fold, lines, a, s) && LikeMatches(fold, lines, b, t)
    ensures LikeMatches(fold, lines, a + b, s + t)
  {
    var p :| Cuts(fold, lines, a, p, s);
    var q :| Cuts(fold, lines, b, q, t);
    JoinConcat(p, q);
    assert Cuts(fold, lines, a + b, p + q, s + t);
  }

  /** A match that takes no more than it needs divides in one place only. */
  lemma SplitTight(
    fold: char -> char, lines: bool, p: char -> bool, ones: bool, a: seq<Token>, b: seq<Token>, m: string)
    returns (i: nat)
    requires KeepsMarks(fold, p) && (ones ==> forall c :: p(c)) && LikeMatches(fold, lines, a + b, m)
    requires Count(p, m) == Needs(p, ones, a + b)
    ensures i <= |m| && LikeMatches(fold, lines, a, m[..i]) && LikeMatches(fold, lines, b, m[i..])
    ensures Count(p, m[..i]) == Needs(p, ones, a)
  {
    hide LikeMatches, Count;
    i := SplitMatch(fold, lines, a, b, m);
    TakesNeeds(fold, lines, p, ones, a, m[..i]);
    TakesNeeds(fold, lines, p, ones, b, m[i..]);
    NeedsConcat(p, ones, a, b);
    assert m == m[..i] + m[i..];
    CountConcat(p, m[..i], m[i..]);
  }

  lemma LastTaken(fold: char -> char, lines: bool, ts: seq<Token>, m: string)
    requires ts != [] && ts[|ts| - 1].Exactly? && LikeMatches(fold, lines, ts, m)
    ensures m != [] && fold(m[|m| - 1]) == fold(ts[|ts| - 1].c)
  {
    var init, last := ts[..|ts| - 1], ts[|ts| - 1];
    assert ts == init + [last];
    var i := SplitMatch(fold, lines, init, [last], m);
    var piece, rest := FirstPiece(fold, lines, [last], m[i..]);
    NothingMatched(fold, lines, rest);
    assert m[i..] == piece && |piece| == 1;
    assert m[|m| - 1] == piece[0];
  }

  // ---------- What such patterns match is found ----------

  lemma WildcardsMayCoverLines(fold: char -> char, ts: seq<Token>, s: string)
    requires LikeMatches(fold, false, ts, s)
    ensures LikeMatches(fold, true, ts, s)
  {
    var pieces :| Cuts(fold, false, ts, pieces, s);
    assert Cuts(fold, true, ts, pieces, s);
  }

  lemma {:induction false} LiteralsCoverNothing(fold: char -> char, ts: seq<Token>, s: string)
    requires LikeMatches(fold, true, ts, s) && forall t :: t in ts ==> t.Exactly?
    ensures LikeMatches(fold, false, ts, s)
  {
    var pieces :| Cuts(fold, true, ts, pieces, s);
    forall k | 0 <= k < |ts|
      ensures Fits(fold, false, ts[k], pieces[k])
    {
      assert ts[k] in ts && Fits(fold, true, ts[k], pieces[k]);
    }
    assert Cuts(fold, false, ts, pieces, s);
  }

  lemma NothingNeeded(fold: char -> char)
    ensures LikeMatches(fold, false, [], "")
  {
    assert Cuts(fold, false, [], [], "");
  }

  lemma TailIsPoor(ts: seq<Token>)
    requires ts != [] && AnyOne !in ts && !Rich(ts)
    ensures !Rich(ts[1..]) && AnyOne !in ts[1..]
    ensures ts[0] == AnyRun || ts[0] == Exactly('\n')
  {
    assert ts[0] in ts;
    forall k
      ensures PairAt(ts[1..], k) ==> PairAt(ts, k + 1)
    {
    }
  }

  lemma {:induction false} FirstNewline(s: string) returns (n: nat)
    requires '\n' in s
    ensures n < |s| && s[n] == '\n' && '\n' !in s[..n]
  {
    if s[0] == '\n' {
      n := 0;
    } else {
      assert s == [s[0]] + s[1..];
      var m := FirstNewline(s[1..]);
      n := m + 1;
      assert s[..n] == [s[0]] + s[1..][..m];
    }
  }

  lemma NewlineSplits(s: string) returns (n: nat)
    requires Count(IsNewline, s) > 0
    ensures n < |s| && s[n] == '\n' && '\n' !in s[..n]
    ensures Count(IsNewline, s[n + 1..]) == Count(IsNewline, s) - 1
  {
    CountNone(IsNewline, s);
    n := FirstNewline(s);
    CountParts(IsNewline, s, n, n + 1);
    CountNone(IsNewline, s[..n]);
    assert s[n..n + 1] == [s[n]];
    CountOne(IsNewline, s[n]);
  }

  /** Runs and lone newlines find the newlines they need at the head of a text, one after
      the other, so that no run has to cover one. */
  lemma {:induction false} NearestNewlines(fold: char -> char, ts: seq<Token>, s: string) returns (j: nat)
    requires AnyOne !in ts && !Rich(ts) && (ts != [] ==> ts[0] == AnyRun)
    requires Count(IsNewline, s) >= Needs(IsNewline, false, ts)
    ensures j <= |s| && LikeMatches(fold, false, ts, s[..j])
    decreases |ts|
  {
    hide LikeMatches, Count;
    if ts == [] {
      j := 0;
      NothingNeeded(fold);
    } else {
      var rest := ts[1..];
      TailIsPoor(ts);
      if rest == [] || rest[0] == AnyRun {
        j := NearestNewlines(fold, rest, s);
        OnePieceMore(fold, false, ts, "", s[..j]);
        assert "" + s[..j] == s[..j];
      } else {
        TailIsPoor(rest);
        assert !PairAt(ts, 1) && rest[0] in ts;
        assert rest[0] == Exactly('\n') && (rest[1..] != [] ==> rest[1..][0] == AnyRun);
        var n := NewlineSplits(s);
        j := NearestNewlines(fold, rest[1..], s[n + 1..]);
        OnePieceMore(fold, false, rest, "\n", s[n + 1..][..j]);
        OnePieceMore(fold, false, ts, s[..n], "\n" + s[n + 1..][..j]);
        assert s[..n] + ("\n" + s[n + 1..][..j]) == s[..n + 1 + j];
        j := n + 1 + j;
      }
    }
  }

  lemma NewlinesNeeded(fold: char -> char, ts: seq<Token>, s: string)
    requires Separates(fold) && LikeMatches(fold, true, ts, s)
    ensures Count(IsNewline, s) >= Needs(IsNewline, false, ts)
  {
    assert KeepsMarks(fold, IsNewline);
    TakesNeeds(fold, true, IsNewline, false, ts, s);
  }

  lemma ReversedIsPoor(ts: seq<Token>)
    ensures HasLetter(Reverse(ts)) ==> HasLetter(ts)
    ensures HasPair(Reverse(ts)) ==> HasPair(ts)
  {
    var r := Reverse(ts);
    if k :| 0 <= k < |r| && r[k].Exactly? && r[k].c != '\n' {
      assert ts[|ts| - 1 - k] == r[k];
    }
    if k :| 0 <= k < |r| && PairAt(r, k) {
      assert PairAt(ts, |ts| - 2 - k);
    }
  }

  /** They do so at the end of a text too: the same, read backwards. */
  lemma NearestNewlinesBefore(fold: char -> char, ts: seq<Token>, s: string) returns (i: nat)
    requires Separates(fold) && AnyOne !in ts && !Rich(ts) && (ts != [] ==> ts[|ts| - 1] == AnyRun)
    requires LikeMatches(fold, true, ts, s)
    ensures i <= |s| && LikeMatches(fold, false, ts, s[i..])
  {
    MatchesReversed(fold, true, ts, s);
    ReversedIsPoor(ts);
    NewlinesNeeded(fold, Reverse(ts), Reverse(s));
    var j := NearestNewlines(fold, Reverse(ts), Reverse(s));
    i := |s| - j;
    MatchesReversed(fold, false, Reverse(ts), Reverse(s)[..j]);
    ReverseTwice(ts);
    assert Reverse(Reverse(s)[..j]) == s[i..];
  }

  lemma NothingIsPoor()
    ensures !Rich([])
  {
  }

  lemma RunIsPoor(ts: seq<Token>, j: nat)
    requires j < |ts| && ts[j] == AnyRun
    ensures Rich(ts[..j + 1]) ==> Rich(ts[..j])
    ensures Rich(ts[j..]) ==> Rich(ts[j + 1..])
  {
    var upTo, from := ts[..j + 1], ts[j..];
    if k :| 0 <= k < |upTo| && PairAt(upTo, k) {
      assert PairAt(ts[..j], k);
    }
    if k :| 0 <= k < |upTo| && upTo[k].Exactly? && upTo[k].c != '\n' {
      assert ts[..j][k] == upTo[k];
    }
    if k :| 0 <= k < |from| && PairAt(from, k) {
      assert PairAt(ts[j + 1..], k - 1);
    }
    if k :| 0 <= k < |from| && from[k].Exactly? && from[k].c != '\n' {
      assert ts[j + 1..][k - 1] == from[k];
    }
  }

  /** Where the only literals that are more than lone newlines stand. */
  lemma MiddleStretch(ts: seq<Token>, i: nat) returns (a: nat, b: nat)
    requires OneStretch(ts) && ts != [] && ts[|ts| - 1] == AnyRun
    requires i < |ts| && ts[i] == AnyRun && !Rich(ts[..i + 1])
    ensures 0 < a <= b <= |ts| && ts[a - 1] == AnyRun && !Rich(ts[..a])
    ensures (forall k :: a <= k < b ==> ts[k].Exactly?)
    ensures !Rich(ts[b..]) && (b < |ts| ==> ts[b] == AnyRun)
    decreases |ts| - i
  {
    hide Rich;
    if i + 1 == |ts| {
      a, b := |ts|, |ts|;
      NothingIsPoor();
      assert ts[b..] == [];
    } else {
      var j := i + 1;
      while ts[j] != AnyRun
        invariant i < j < |ts| && forall k :: i < k < j ==> ts[k].Exactly?
        decreases |ts| - j
      {
        assert ts[j] in ts;
        j := j + 1;
      }
      if Rich(ts[..j + 1]) {
        a, b := i + 1, j;
        RunIsPoor(ts, j);
      } else {
        a, b := MiddleStretch(ts, j);
      }
    }
  }

  lemma StretchMatches(fold: char -> char, ts: seq<Token>, s: string) returns (i: nat, j: nat)
    requires Separates(fold) && LikeMatches(fold, true, ts, s)
    requires OneStretch(ts) && ts != [] && ts[0] == AnyRun && ts[|ts| - 1] == AnyRun
    ensures i <= j <= |s| && LikeMatches(fold, false, ts, s[i..j])
  {
    hide LikeMatches, Rich, Count;
    NothingIsPoor();
    RunIsPoor(ts, 0);
    var a, b := MiddleStretch(ts, 0);
    var front, middle, back := ts[..a], ts[a..b], ts[b..];
    assert ts == front + (middle + back);
    var x := SplitMatch(fold, true, front, middle + back, s);
    var y := SplitMatch(fold, true, middle, back, s[x..]);
    i := NearestNewlinesBefore(fold, front, s[..x]);
    LiteralsCoverNothing(fold, middle, s[x..][..y]);
    NewlinesNeeded(fold, back, s[x..][y..]);
    var z := NearestNewlines(fold, back, s[x..][y..]);
    JoinMatch(fold, false, middle, back, s[x..][..y], s[x..][y..][..z]);
    JoinMatch(fold, false, front, middle + back, s[..x][i..], s[x..][..y] + s[x..][y..][..z]);
    j := x + y + z;
    assert s[..x][i..] + (s[x..][..y] + s[x..][y..][..z]) == s[i..j];
  }

  // ---------- What is found such patterns match ----------

  lemma RunFirst(fold: char -> char, ts: seq<Token>, x: string, m: string)
    requires ts != [] && ts[0] == AnyRun && LikeMatches(fold, true, ts, m)
    ensures LikeMatches(fold, true, ts, x + m)
  {
    var piece, rest := FirstPiece(fold, true, ts, m);
    OnePieceMore(fold, true, ts, x + piece, rest);
    assert x + m == x + piece + rest;
  }

  lemma RunLast(fold: char -> char, ts: seq<Token>, m: string, y: string)
    requires ts != [] && ts[|ts| - 1] == AnyRun && LikeMatches(fold, true, ts, m)
    ensures LikeMatches(fold, true, ts, m + y)
  {
    MatchesReversed(fold, true, ts, m);
    RunFirst(fold, Reverse(ts), Reverse(y), Reverse(m));
    MatchesReversed(fold, true, Reverse(ts), Reverse(y) + Reverse(m));
    ReverseConcat(Reverse(y), Reverse(m));
    ReverseTwice(ts);
    ReverseTwice(m);
    ReverseTwice(y);
  }

  lemma OpenEndsAreRuns(ts: seq<Token>)
    requires AnyOne !in ts && LeadOpen(ts) && LeadOpen(Reverse(ts))
    ensures ts != [] && ts[0] == AnyRun && ts[|ts| - 1] == AnyRun
  {
    assert ts[0] in ts && Reverse(ts)[0] in ts;
  }

  lemma FoundIsMatched(fold: char -> char, ts: seq<Token>, s: string)
    requires ts != [] && ts[0] == AnyRun && ts[|ts| - 1] == AnyRun && Finds(fold, ItemsOf(ts), s)
    ensures LikeMatches(fold, true, ts, s)
  {
    hide LikeMatches, Consumes, ItemsOf;
    var i, j :| 0 <= i <= j <= |s| && Consumes(fold, ItemsOf(ts), s[i..j]);
    ConsumesIsLikeMatches(fold, ts, s[i..j]);
    WildcardsMayCoverLines(fold, ts, s[i..j]);
    RunFirst(fold, ts, s[..i], s[i..j]);
    assert s[..i] + s[i..j] == s[..j];
    RunLast(fold, ts, s[..j], s[j..]);
    assert s[..j] + s[j..] == s;
  }

  // ---------- Any other pattern misses a subject ----------

  /** A text for `left`, a `%` and `right` in which the `%` has to cover a newline. */
  function Spread(fill: string, left: seq<Token>, right: seq<Token>): string {
    Sample(fill, left) + ((fill + "\n" + fill) + Sample(fill, right))
  }

  lemma {:induction false} SampleConcat(fill: string, a: seq<Token>, b: seq<Token>)
    ensures Sample(fill, a + b) == Sample(fill, a) + Sample(fill, b)
  {
    if a == [] {
      assert a + b == b;
    } else {
      assert (a + b)[1..] == a[1..] + b && (a + b)[0] == a[0];
      SampleConcat(fill, a[1..], b);
    }
  }

  lemma SampleOne(fill: string, t: Token)
    ensures Sample(fill, [t]) == SampleOf(fill, t)
  {
    assert Sample(fill, [t]) == SampleOf(fill, t) + Sample(fill, [t][1..]);
  }

  lemma {:induction false} SampleReversed(fill: string, ts: seq<Token>)
    requires |fill| <= 1
    ensures Sample(fill, Reverse(ts)) == Reverse(Sample(fill, ts))
  {
    if ts != [] {
      SampleReversed(fill, ts[1..]);
      ReverseConcat([ts[0]], ts[1..]);
      assert ts == [ts[0]] + ts[1..] && Reverse([ts[0]]) == [ts[0]];
      SampleConcat(fill, Reverse(ts[1..]), [ts[0]]);
      ReverseConcat(SampleOf(fill, ts[0]), Sample(fill, ts[1..]));
      assert Reverse(SampleOf(fill, ts[0])) == SampleOf(fill, ts[0]);
      SampleOne(fill, ts[0]);
    }
  }

  lemma ReverseThree(a: string, b: string, c: string)
    ensures Reverse(a + (b + c)) == Reverse(c) + (Reverse(b) + Reverse(a))
  {
    ReverseConcat(a, b + c);
    ReverseConcat(b, c);
    assert Reverse(c) + Reverse(b) + Reverse(a) == Reverse(c) + (Reverse(b) + Reverse(a));
  }

  lemma GapReversed(fill: string)
    requires |fill| <= 1
    ensures Reverse(fill + "\n" + fill) == fill + "\n" + fill
  {
  }

  lemma SpreadReversed(fill: string, left: seq<Token>, right: seq<Token>)
    requires |fill| <= 1
    ensures Reverse(Spread(fill, left, right)) == Spread(fill, Reverse(right), Reverse(left))
  {
    hide Reverse, Sample;
    SampleReversed(fill, left);
    SampleReversed(fill, right);
    GapReversed(fill);
    ReverseThree(Sample(fill, left), fill + "\n" + fill, Sample(fill, right));
  }

  lemma {:induction false} SampleCount(p: char -> bool, ones: bool, fill: string, ts: seq<Token>)
    requires Count(p, fill) == 0 && (AnyOne !in ts || p('a') == ones)
    ensures Count(p, Sample(fill, ts)) == Needs(p, ones, ts)
  {
    if ts == [] {
      CountNone(p, "");
    } else {
      hide Count;
      SampleCount(p, ones, fill, ts[1..]);
      CountConcat(p, SampleOf(fill, ts[0]), Sample(fill, ts[1..]));
      match ts[0]
      case AnyRun =>
      case AnyOne => CountOne(p, 'a');
      case Exactly(c) => CountOne(p, c);
    }
  }

  lemma SpreadCount(p: char -> bool, fill: string, left: seq<Token>, right: seq<Token>)
    requires Count(p, fill) == 0 && p('\n') && AnyOne !in left && AnyOne !in right
    ensures Count(p, Spread(fill, left, right)) == Needs(p, false, left) + Needs(p, false, right) + 1
  {
    hide Count;
    SampleCount(p, false, fill, left);
    SampleCount(p, false, fill, right);
    CountConcat(p, Sample(fill, left), fill + "\n" + fill + Sample(fill, right));
    CountConcat(p, fill + "\n" + fill, Sample(fill, right));
    CountConcat(p, fill + "\n", fill);
    CountConcat(p, fill, "\n");
    CountOne(p, '\n');
  }

  lemma SpreadMatches(fold: char -> char, fill: string, left: seq<Token>, w: Token, right: seq<Token>)
    requires '\n' !in fill && (w == AnyRun || (w == AnyOne && fill == ""))
    ensures LikeMatches(fold, true, left + ([w] + right), Spread(fill, left, right))
  {
    SampleMatches(fold, fill, left);
    SampleMatches(fold, fill, right);
    WildcardsMayCoverLines(fold, left, Sample(fill, left));
    WildcardsMayCoverLines(fold, right, Sample(fill, right));
    assert ([w] + right)[1..] == right;
    OnePieceMore(fold, true, [w] + right, fill + "\n" + fill, Sample(fill, right));
    JoinMatch(fold, true, left, [w] + right, Sample(fill, left), fill + "\n" + fill + Sample(fill, right));
  }

  lemma {:induction false} CountAll(s: string)
    ensures Count(_ => true, s) == |s|
  {
    AllKept(_ => true, s);
  }

  lemma OneIsNoNewline(fold: char -> char, right: seq<Token>, m: string)
    requires LikeMatches(fold, false, [AnyOne] + right, m)
    ensures m != [] && m[0] != '\n'
  {
    var piece, rest := FirstPiece(fold, false, [AnyOne] + right, m);
    assert piece[0] == m[0];
  }

  lemma OneTakesNoNewline(fold: char -> char, left: seq<Token>, right: seq<Token>, i: nat, j: nat)
    requires i <= j <= |Spread("", left, right)|
    ensures !LikeMatches(fold, false, left + ([AnyOne] + right), Spread("", left, right)[i..j])
  {
    hide LikeMatches, Count;
    var all: char -> bool := _ => true;
    var s, l, r := Spread("", left, right), Sample("", left), Sample("", right);
    var m, tail := s[i..j], [AnyOne] + right;
    assert s == l + ("\n" + r) && s[|l|] == '\n' && tail[1..] == right;
    CountNone(all, "");
    CountAll(l);
    CountAll(r);
    CountAll(m);
    SampleCount(all, true, "", left);
    SampleCount(all, true, "", right);
    NeedsConcat(all, true, left, tail);
    if LikeMatches(fold, false, left + tail, m) {
      TakesNeeds(fold, false, all, true, left + tail, m);
      assert m == s;
      var k := SplitTight(fold, false, all, true, left, tail, m);
      CountAll(m[..k]);
      OneIsNoNewline(fold, right, m[k..]);
    }
  }

  /** A `_` cannot take the newline of a text that has no other character to offer. */
  lemma OneMissed(fold: char -> char, left: seq<Token>, right: seq<Token>)
    requires Separates(fold)
    ensures !Finds(fold, ItemsOf(left + ([AnyOne] + right)), Spread("", left, right))
  {
    hide LikeMatches, Consumes, ItemsOf;
    var all: char -> bool, ts, s := c => true, left + ([AnyOne] + right), Spread("", left, right);
    forall i, j | 0 <= i <= j <= |s|
      ensures !Consumes(fold, ItemsOf(ts), s[i..j])
    {
      ConsumesIsLikeMatches(fold, ts, s[i..j]);
      OneTakesNoNewline(fold, left, right, i, j);
    }
  }

  /** A newline-only part of a pattern in which two newlines stand together, or a part with
      a marked literal that is no newline: it tells where it stands in a text. */
  ghost predicate Placed(p: char -> bool, fill: string, ts: seq<Token>) {
    || (exists k :: 0 <= k < |ts| && ts[k].Exactly? && ts[k].c != '\n' && p(ts[k].c))
    || (fill != "" && HasPair(ts) && !HasLetter(ts))
  }

  lemma LastMarked(p: char -> bool, ts: seq<Token>) returns (k: nat)
    requires exists k :: 0 <= k < |ts| && ts[k].Exactly? && ts[k].c != '\n' && p(ts[k].c)
    ensures k < |ts| && ts[k].Exactly? && ts[k].c != '\n' && p(ts[k].c)
    ensures forall j :: k < j < |ts| && ts[j].Exactly? ==> ts[j].c == '\n' || !p(ts[j].c)
  {
    var last := ts[|ts| - 1];
    if last.Exactly? && last.c != '\n' && p(last.c) {
      k := |ts| - 1;
    } else {
      var init := ts[..|ts| - 1];
      var j :| 0 <= j < |ts| && ts[j].Exactly? && ts[j].c != '\n' && p(ts[j].c);
      assert init[j] == ts[j];
      k := LastMarked(p, init);
      assert forall j :: 0 <= j < |init| ==> init[j] == ts[j];
    }
  }

  lemma LastPair(ts: seq<Token>) returns (k: nat)
    requires HasPair(ts) && !HasLetter(ts) && AnyOne !in ts
    ensures PairAt(ts, k) && (k + 2 < |ts| ==> ts[k + 2] == AnyRun)
  {
    k :| 0 <= k < |ts| && PairAt(ts, k);
    while k + 2 < |ts| && ts[k + 2] != AnyRun
      invariant PairAt(ts, k)
      decreases |ts| - k
    {
      assert ts[k + 2] in ts && ts[k + 2].Exactly?;
      k := k + 1;
    }
  }

  lemma {:induction false} UnmarkedSample(p: char -> bool, fill: string, ts: seq<Token>)
    requires AnyOne !in ts && (forall c :: c in fill ==> !p(c))
    requires forall j :: 0 <= j < |ts| && ts[j].Exactly? ==> ts[j].c == '\n' || !p(ts[j].c)
    ensures forall c :: c in Sample(fill, ts) ==> c == '\n' || !p(c)
  {
    if ts != [] {
      assert ts[0] in ts;
      assert forall j :: 0 <= j < |ts[1..]| ==> ts[1..][j] == ts[j + 1];
      UnmarkedSample(p, fill, ts[1..]);
    }
  }

  /** The pattern matched in a text for it with one newline too many, and the first newline
      of the text left out. */
  ghost predicate Shifted(
    fold: char -> char, p: char -> bool, fill: string, left: seq<Token>, right: seq<Token>, from: nat, to: nat) {
    var s := Spread(fill, left, right);
    && from <= to <= |s|
    && LikeMatches(fold, false, left + ([AnyRun] + right), s[from..to])
    && Count(p, s[..from]) == 1
    && Count(p, s[from..to]) == Needs(p, false, left + ([AnyRun] + right))
  }

  /** Then everything up to a literal of `left` takes the next marked character. */
  lemma TakesNext(
    fold: char -> char, p: char -> bool, fill: string, left: seq<Token>, right: seq<Token>, from: nat, to: nat, k: nat)
    returns (x: nat)
    requires Separates(fold) && KeepsMarks(fold, p) && AnyOne !in left && AnyOne !in right
    requires Shifted(fold, p, fill, left, right, from, to)
    requires k < |left| && left[k].Exactly? && p(left[k].c)
    ensures x < to <= |Spread(fill, left, right)|
    ensures var s := Spread(fill, left, right);
            && fold(s[x]) == fold(left[k].c) && p(s[x])
            && Count(p, s[..x]) == Needs(p, false, left[..k + 1])
            && LikeMatches(fold, false, left[k + 1..] + ([AnyRun] + right), s[x + 1..to])
  {
    hide LikeMatches, Count, Spread;
    var s, a, b := Spread(fill, left, right), left[..k + 1], left[k + 1..] + ([AnyRun] + right);
    assert left + ([AnyRun] + right) == a + b;
    var m := s[from..to];
    var i := SplitTight(fold, false, p, false, a, b, m);
    LastTaken(fold, false, a, m[..i]);
    x := from + i - 1;
    assert m[..i][i - 1] == s[x] && m[i..] == s[x + 1..to] && m[..i] == s[from..x + 1];
    CountParts(p, s, from, x + 1);
    CountParts(p, s, x, x + 1);
    assert s[x..x + 1] == [s[x]];
    CountOne(p, s[x]);
  }

  lemma NewlineIsTaken(fold: char -> char, lines: bool, ts: seq<Token>, m: string)
    requires Separates(fold) && ts != [] && ts[0] == Exactly('\n') && LikeMatches(fold, lines, ts, m)
    ensures m != [] && m[0] == '\n'
  {
    var piece, rest := FirstPiece(fold, lines, ts, m);
    assert piece[0] == m[0];
  }

  lemma SpreadParts(fill: string, left: seq<Token>, right: seq<Token>, n: nat)
    requires n <= |left|
    ensures Spread(fill, left, right)
         == Sample(fill, left[..n]) + ((Sample(fill, left[n..]) + fill + "\n") + (fill + Sample(fill, right)))
  {
    hide Sample;
    assert left == left[..n] + left[n..];
    SampleConcat(fill, left[..n], left[n..]);
  }

  /** The first marked character after `head` is the newline behind `d`. */
  lemma NextMark(p: char -> bool, head: string, d: string, rest: string, s: string, x: nat)
    requires s == head + (d + ("\n" + rest)) && Count(p, d) == 0 && p('\n')
    requires x < |s| && p(s[x]) && Count(p, s[..x]) == Count(p, head)
    ensures x == |head| + |d| && s[x] == '\n' && s[x + 1..] == rest
  {
    hide Count;
    CountConcat(p, head, d);
    assert s[..|head| + |d|] == head + d && s[|head| + |d|] == '\n';
    SamePosition(p, s, x, |head| + |d|);
  }

  /** The marked character after those for the tokens up to the last marked letter is a newline. */
  lemma LetterIsNewline(p: char -> bool, fill: string, left: seq<Token>, right: seq<Token>, k: nat, x: nat)
    requires p('\n') && AnyOne !in left && '\n' !in fill && Count(p, fill) == 0
    requires k < |left| && left[k].Exactly?
    requires forall j :: k < j < |left| && left[j].Exactly? ==> left[j].c == '\n' || !p(left[j].c)
    requires var s := Spread(fill, left, right);
             x < |s| && p(s[x]) && Count(p, s[..x]) == Needs(p, false, left[..k + 1])
    ensures Spread(fill, left, right)[x] == '\n'
  {
    hide Count, Sample, Needs, Spread;
    var head, t := Sample(fill, left[..k + 1]), Sample(fill, left[k + 1..]) + fill + "\n";
    SpreadParts(fill, left, right, k + 1);
    SampleCount(p, false, fill, left[..k + 1]);
    CountNone(p, fill);
    UnmarkedSample(p, fill, left[k + 1..]);
    assert t[|t| - 1] == '\n';
    var n := FirstNewline(t);
    CountNone(p, t[..n]);
    var rest := t[n + 1..] + (fill + Sample(fill, right));
    assert t == t[..n] + ("\n" + t[n + 1..]);
    assert t + (fill + Sample(fill, right)) == t[..n] + ("\n" + rest);
    NextMark(p, head, t[..n], rest, Spread(fill, left, right), x);
  }

  lemma SampleStarts(fill: string, ts: seq<Token>)
    requires ts != []
    ensures Sample(fill, ts) == SampleOf(fill, ts[0]) + Sample(fill, ts[1..])
  {
  }

  lemma AfterPair(fill: string, ts: seq<Token>, n: nat)
    requires n <= |ts| && (n < |ts| ==> ts[n] == AnyRun) && |fill| == 1
    ensures (Sample(fill, ts[n..]) + fill)[0] == fill[0]
  {
  }

  /** The newline after those for the tokens up to the last pair is followed by a filler. */
  lemma PairIsDivided(p: char -> bool, fill: string, left: seq<Token>, right: seq<Token>, k: nat, x: nat)
    requires p('\n') && AnyOne !in left && |fill| == 1 && '\n' !in fill && Count(p, fill) == 0
    requires PairAt(left, k) && (k + 2 < |left| ==> left[k + 2] == AnyRun)
    requires var s := Spread(fill, left, right);
             x < |s| && p(s[x]) && Count(p, s[..x]) == Needs(p, false, left[..k + 1])
    ensures x + 1 < |Spread(fill, left, right)| && Spread(fill, left, right)[x + 1] != '\n'
  {
    hide Count, Sample, Needs, Spread;
    var head, after, end := Sample(fill, left[..k + 1]), Sample(fill, left[k + 2..]), fill + Sample(fill, right);
    SpreadParts(fill, left, right, k + 1);
    SampleCount(p, false, fill, left[..k + 1]);
    SampleStarts(fill, left[k + 1..]);
    assert left[k + 1..][0] == Exactly('\n') && left[k + 1..][1..] == left[k + 2..];
    AfterPair(fill, left, k + 2);
    var rest := after + fill + "\n" + end;
    assert Sample(fill, left[k + 1..]) + fill + "\n" + end == "" + ("\n" + rest);
    CountNone(p, "");
    NextMark(p, head, "", rest, Spread(fill, left, right), x);
  }

  lemma PlacedIsNotShifted(
    fold: char -> char, p: char -> bool, fill: string, left: seq<Token>, right: seq<Token>, from: nat, to: nat)
    requires Separates(fold) && KeepsMarks(fold, p) && p('\n') && AnyOne !in left && AnyOne !in right
    requires |fill| <= 1 && '\n' !in fill && Count(p, fill) == 0
    requires Placed(p, fill, left)
    ensures !Shifted(fold, p, fill, left, right, from, to)
  {
    hide Count, Shifted, LikeMatches, Spread, Needs;
    if Shifted(fold, p, fill, left, right, from, to) {
      if exists k :: 0 <= k < |left| && left[k].Exactly? && left[k].c != '\n' && p(left[k].c) {
        var k := LastMarked(p, left);
        var x := TakesNext(fold, p, fill, left, right, from, to, k);
        LetterIsNewline(p, fill, left, right, k, x);
      } else {
        var k := LastPair(left);
        var x := TakesNext(fold, p, fill, left, right, from, to, k);
        var after := left[k + 1..] + ([AnyRun] + right);
        NewlineIsTaken(fold, false, after, Spread(fill, left, right)[x + 1..to]);
        PairIsDivided(p, fill, left, right, k, x);
      }
    }
  }

  // ---------- The same read backwards ----------

  lemma PairReversed(ts: seq<Token>)
    requires HasPair(ts)
    ensures HasPair(Reverse(ts))
  {
    var k :| 0 <= k < |ts| && PairAt(ts, k);
    assert PairAt(Reverse(ts), |ts| - 2 - k);
  }

  lemma PlacedReversed(p: char -> bool, fill: string, ts: seq<Token>)
    requires Placed(p, fill, ts)
    ensures Placed(p, fill, Reverse(ts))
  {
    var r := Reverse(ts);
    if k :| 0 <= k < |ts| && ts[k].Exactly? && ts[k].c != '\n' && p(ts[k].c) {
      assert r[|ts| - 1 - k] == ts[k];
    } else {
      ReversedIsPoor(ts);
      PairReversed(ts);
    }
  }

  lemma SliceReversed(s: string, i: nat, j: nat)
    requires i <= j <= |s|
    ensures Reverse(s[i..j]) == Reverse(s)[|s| - j..|s| - i]
  {
  }

  lemma TokensReversed(left: seq<Token>, right: seq<Token>)
    ensures Reverse(left + ([AnyRun] + right)) == Reverse(right) + ([AnyRun] + Reverse(left))
  {
    ReverseConcat(left, [AnyRun] + right);
    ReverseConcat([AnyRun], right);
    assert Reverse([AnyRun]) == [AnyRun];
    assert Reverse(right) + [AnyRun] + Reverse(left) == Reverse(right) + ([AnyRun] + Reverse(left));
  }

  lemma {:induction false} NeedsReversed(p: char -> bool, ones: bool, ts: seq<Token>)
    ensures Needs(p, ones, Reverse(ts)) == Needs(p, ones, ts)
  {
    if ts != [] {
      NeedsReversed(p, ones, ts[1..]);
      ReverseConcat([ts[0]], ts[1..]);
      assert ts == [ts[0]] + ts[1..] && Reverse([ts[0]]) == [ts[0]] && [ts[0]][1..] == [];
      NeedsConcat(p, ones, Reverse(ts[1..]), [ts[0]]);
    }
  }

  lemma ReversedShifted(
    fold: char -> char, p: char -> bool, fill: string, left: seq<Token>, right: seq<Token>, from: nat, to: nat)
    requires |fill| <= 1 && from <= to <= |Spread(fill, left, right)|
    requires LikeMatches(fold, false, left + ([AnyRun] + right), Spread(fill, left, right)[from..to])
    requires Count(p, Spread(fill, left, right)[to..]) == 1
    requires Count(p, Spread(fill, left, right)[from..to]) == Needs(p, false, left + ([AnyRun] + right))
    ensures var n := |Spread(fill, left, right)|;
            Shifted(fold, p, fill, Reverse(right), Reverse(left), n - to, n - from)
  {
    hide LikeMatches, Count, Spread, Needs;
    var s, ts := Spread(fill, left, right), left + ([AnyRun] + right);
    SpreadReversed(fill, left, right);
    MatchesReversed(fold, false, ts, s[from..to]);
    TokensReversed(left, right);
    SliceReversed(s, from, to);
    SliceReversed(s, to, |s|);
    assert s[to..|s|] == s[to..] && Reverse(s)[0..|s| - to] == Reverse(s)[..|s| - to];
    CountReversed(p, s[from..to]);
    CountReversed(p, s[to..]);
    NeedsReversed(p, false, ts);
  }

  // ---------- The witness ----------

  /** A stretch that matches leaves out one marked character, at one end of the text. */
  lemma OneNewlineLeft(
    fold: char -> char, p: char -> bool, fill: string, left: seq<Token>, right: seq<Token>, i: nat, j: nat)
    requires Separates(fold) && KeepsMarks(fold, p) && p('\n') && AnyOne !in left && AnyOne !in right
    requires '\n' !in fill && Count(p, fill) == 0 && i <= j <= |Spread(fill, left, right)|
    requires LikeMatches(fold, false, left + ([AnyRun] + right), Spread(fill, left, right)[i..j])
    ensures var s, ts := Spread(fill, left, right), left + ([AnyRun] + right);
            && Count(p, s[i..j]) == Needs(p, false, ts)
            && (Count(p, s[..i]) == 1 || Count(p, s[j..]) == 1)
  {
    hide LikeMatches, Count, Spread;
    var ts, s := left + ([AnyRun] + right), Spread(fill, left, right);
    CountNone(IsNewline, fill);
    assert ([AnyRun] + right)[1..] == right;
    forall q: char -> bool
      ensures Needs(q, false, ts) == Needs(q, false, left) + Needs(q, false, right)
    {
      NeedsConcat(q, false, left, [AnyRun] + right);
    }
    SpreadCount(p, fill, left, right);
    SpreadCount(IsNewline, fill, left, right);
    TakesNeeds(fold, false, p, false, ts, s[i..j]);
    TakesNewlines(fold, ts, s[i..j]);
    CountParts(p, s, i, j);
    CountParts(IsNewline, s, i, j);
    NewlinesAmong(p, s[..i]);
    NewlinesAmong(p, s[j..]);
  }

  lemma NotMatched(
    fold: char -> char, p: char -> bool, fill: string, left: seq<Token>, right: seq<Token>, i: nat, j: nat)
    requires Separates(fold) && KeepsMarks(fold, p) && p('\n') && AnyOne !in left && AnyOne !in right
    requires |fill| <= 1 && '\n' !in fill && Count(p, fill) == 0
    requires Placed(p, fill, left) && Placed(p, fill, right)
    requires i <= j <= |Spread(fill, left, right)|
    ensures !LikeMatches(fold, false, left + ([AnyRun] + right), Spread(fill, left, right)[i..j])
  {
    hide LikeMatches, Count, Spread, Placed;
    var ts, s := left + ([AnyRun] + right), Spread(fill, left, right);
    if LikeMatches(fold, false, ts, s[i..j]) {
      OneNewlineLeft(fold, p, fill, left, right, i, j);
      if Count(p, s[..i]) == 1 {
        PlacedIsNotShifted(fold, p, fill, left, right, i, j);
      } else {
        PlacedReversed(p, fill, right);
        ReversedShifted(fold, p, fill, left, right, i, j);
        PlacedIsNotShifted(fold, p, fill, Reverse(right), Reverse(left), |s| - j, |s| - i);
      }
    }
  }

  /** The text has one newline too many for the pattern, and no stretch of the text can do
      without its first or its last newline and still place both sides. */
  lemma RunMissed(fold: char -> char, p: char -> bool, fill: string, left: seq<Token>, right: seq<Token>)
    requires Separates(fold) && KeepsMarks(fold, p) && p('\n') && AnyOne !in left && AnyOne !in right
    requires |fill| <= 1 && '\n' !in fill && Count(p, fill) == 0
    requires Placed(p, fill, left) && Placed(p, fill, right)
    ensures !Finds(fold, ItemsOf(left + ([AnyRun] + right)), Spread(fill, left, right))
  {
    hide LikeMatches, Consumes, ItemsOf, Count, Spread;
    var ts, s := left + ([AnyRun] + right), Spread(fill, left, right);
    forall i, j | 0 <= i <= j <= |s|
      ensures !Consumes(fold, ItemsOf(ts), s[i..j])
    {
      ConsumesIsLikeMatches(fold, ts, s[i..j]);
      NotMatched(fold, p, fill, left, right, i, j);
    }
  }

  /** A filler and marks by which both sides can be placed. */
  lemma Marks(fold: char -> char, left: seq<Token>, right: seq<Token>) returns (p: char -> bool, fill: string)
    requires Separates(fold) && Rich(left) && Rich(right)
    ensures KeepsMarks(fold, p) && p('\n') && |fill| <= 1 && '\n' !in fill && Count(p, fill) == 0
    ensures Placed(p, fill, left) && Placed(p, fill, right)
  {
    if HasLetter(left) && HasLetter(right) {
      p, fill := _ => true, "";
      CountNone(p, fill);
    } else {
      var ts := if HasLetter(left) then left else right;
      var z := 'a';
      if k :| 0 <= k < |ts| && ts[k].Exactly? && ts[k].c != '\n' {
        z := if fold('a') != fold(ts[k].c) then 'a' else 'b';
      }
      p, fill := c => fold(c) != fold(z), [z];
      CountNone(p, fill);
    }
  }

  /** A `_`, or a `%` with more than lone newlines on both sides: LIKE accepts a text of
      several lines that the search misses. */
  lemma MissedWitness(fold: char -> char, ts: seq<Token>) returns (s: string)
    requires Separates(fold) && !OneStretch(ts)
    ensures LikeMatches(fold, true, ts, s) && !Finds(fold, ItemsOf(ts), s)
  {
    hide LikeMatches, Finds, Rich, Spread, Placed, Count;
    if AnyOne in ts {
      var k :| 0 <= k < |ts| && ts[k] == AnyOne;
      assert ts == ts[..k] + ([AnyOne] + ts[k + 1..]);
      s := Spread("", ts[..k], ts[k + 1..]);
      SpreadMatches(fold, "", ts[..k], AnyOne, ts[k + 1..]);
      OneMissed(fold, ts[..k], ts[k + 1..]);
    } else {
      var k :| 0 <= k < |ts| && ts[k] == AnyRun && Rich(ts[..k]) && Rich(ts[k + 1..]);
      assert ts == ts[..k] + ([AnyRun] + ts[k + 1..]);
      var p, fill := Marks(fold, ts[..k], ts[k + 1..]);
      s := Spread(fill, ts[..k], ts[k + 1..]);
      SpreadMatches(fold, fill, ts[..k], AnyRun, ts[k + 1..]);
      RunMissed(fold, p, fill, ts[..k], ts[k + 1..]);
    }
  }

  // ---------- Result ----------

  /** Unanchored search is whole-string LIKE on all subjects, of however many lines, if and
      only if the pattern is open at both ends, has no `_`, and has no more than one stretch
      of literals that is not a lone newline. */
  lemma NewlinesAreExact(fold: char -> char, pattern: string)
    requires Separates(fold)
    ensures Compile(LikeText(pattern)).Some?
    ensures (forall s: string ::
               Finds(fold, Compile(LikeText(pattern)).value, s) <==> LikeMatches(fold, true, Tokens(pattern), s))
       <==> var ts := Tokens(pattern); LeadOpen(ts) && LeadOpen(Reverse(ts)) && OneStretch(ts)
  {
    var ts := Tokens(pattern);
    CompiledTokens(pattern);
    hide Finds, LikeMatches, Separates, Consumes, LeadOpen;
    if !(LeadOpen(ts) && LeadOpen(Reverse(ts))) {
      var s := UnanchoredWitness(fold, ts);
    } else if !OneStretch(ts) {
      var s := MissedWitness(fold, ts);
    } else {
      OpenEndsAreRuns(ts);
      forall s: string
        ensures Finds(fold, ItemsOf(ts), s) <==> LikeMatches(fold, true, ts, s)
      {
        if LikeMatches(fold, true, ts, s) {
          var i, j := StretchMatches(fold, ts, s);
          FindsStretch(fold, ts, s, i, j);
        } else if Finds(fold, ItemsOf(ts), s) {
          FoundIsMatched(fold, ts, s);
        }
      }
    }
  }
}
