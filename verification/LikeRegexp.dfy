// The LIKE compiler: the regular expression text it emits, how that text reads
// back, and what searching with it means.
module LikeRegexp {
  import opened Common

  // ---------- Patterns ----------

  /** What one element of a LIKE pattern stands for. */
  datatype Token = AnyRun | AnyOne | Exactly(c: char)

  /** `%` is any run, `_` any one, a backslash makes the next character stand for
      itself, and a backslash at the very end stands for nothing. */
  function Tokens(pattern: string): seq<Token> {
    if pattern == [] then []
    else if pattern[0] == '%' then [AnyRun] + Tokens(pattern[1..])
    else if pattern[0] == '_' then [AnyOne] + Tokens(pattern[1..])
    else if pattern[0] != '\\' then [Exactly(pattern[0])] + Tokens(pattern[1..])
    else if |pattern| == 1 then []
    else [Exactly(pattern[1])] + Tokens(pattern[2..])
  }

  /** `piece` is something `t` may stand for; `lines` says whether wildcards cover newlines. */
  predicate Fits(fold: char -> char, lines: bool, t: Token, piece: string) {
    match t
    case AnyRun => lines || '\n' !in piece
    case AnyOne => |piece| == 1 && (lines || piece[0] != '\n')
    case Exactly(c) => |piece| == 1 && fold(piece[0]) == fold(c)
  }

  function Join(pieces: seq<string>): string {
    if pieces == [] then "" else pieces[0] + Join(pieces[1..])
  }

  ghost predicate Cuts(fold: char -> char, lines: bool, ts: seq<Token>, pieces: seq<string>, s: string) {
    && |pieces| == |ts|
    && Join(pieces) == s
    && forall k :: 0 <= k < |ts| ==> Fits(fold, lines, ts[k], pieces[k])
  }

  /** The whole of `s` can be cut into one fitting piece per token. */
  ghost predicate LikeMatches(fold: char -> char, lines: bool, ts: seq<Token>, s: string) {
    exists pieces :: Cuts(fold, lines, ts, pieces, s)
  }

  // ---------- Regular expressions ----------

  const META: string := "\\.+*?()|[]{}^$"

  const CASELESS: string := "(?i)"

  /** regexp.QuoteMeta on one character. */
  function QuoteMeta(c: char): string {
    if c in META then ['\\', c] else [c]
  }

  datatype Atom = Dot | Char(c: char)

  datatype Item = One(a: Atom) | Many(a: Atom)

  /** Reads one atom; None when the text is outside the fragment `.`, literals and `*`. */
  function ReadAtom(text: string): Option<(Atom, string)>
    requires text != []
  {
    if text[0] == '\\' then
      if |text| > 1 && text[1] in META then Some((Char(text[1]), text[2..])) else None
    else if text[0] == '.' then Some((Dot, text[1..]))
    else if text[0] in META then None
    else Some((Char(text[0]), text[1..]))
  }

  function ReadItems(text: string): Option<seq<Item>>
    decreases |text|
  {
    if text == [] then
      Some([])
    else
      match ReadAtom(text)
      case None => None
      case Some((a, rest)) =>
        var starred := rest != [] && rest[0] == '*';
        match ReadItems(if starred then rest[1..] else rest)
        case None => None
        case Some(items) => Some([if starred then Many(a) else One(a)] + items)
  }

  /** Compiles a text of the fragment, case-insensitively. */
  function Compile(text: string): Option<seq<Item>> {
    if CASELESS <= text then ReadItems(text[|CASELESS|..]) else None
  }

  /** A dot stands for any character but a newline; a literal for its case-folding class. */
  predicate AtomTakes(fold: char -> char, a: Atom, c: char) {
    match a
    case Dot => c != '\n'
    case Char(d) => fold(c) == fold(d)
  }

  /** The items, in order, consume exactly `s`. */
  predicate Consumes(fold: char -> char, items: seq<Item>, s: string)
    decreases |items| + |s|
  {
    if items == [] then
      s == []
    else
      match items[0]
      case One(a) => s != [] && AtomTakes(fold, a, s[0]) && Consumes(fold, items[1..], s[1..])
      case Many(a) =>
        || Consumes(fold, items[1..], s)
        || (s != [] && AtomTakes(fold, a, s[0]) && Consumes(fold, items, s[1..]))
  }

  /** MatchString: some stretch of `s` is consumed, since nothing anchors the items. */
  predicate Finds(fold: char -> char, items: seq<Item>, s: string) {
    exists i, j :: 0 <= i <= j <= |s| && Consumes(fold, items, s[i..j])
  }

  // ---------- The compiler ----------

  function Emit(t: Token): string {
    match t
    case AnyRun => ".*"
    case AnyOne => "."
    case Exactly(c) => QuoteMeta(c)
  }

  function EmitAll(ts: seq<Token>): string {
    if ts == [] then "" else Emit(ts[0]) + EmitAll(ts[1..])
  }

  /** The text `likeToRegexp` hands to the regular expression compiler. */
  function LikeText(pattern: string): string {
    CASELESS + EmitAll(Tokens(pattern))
  }

  lemma EmitCons(t: Token, ts: seq<Token>, sb: string)
    ensures sb + EmitAll([t] + ts) == sb + Emit(t) + EmitAll(ts)
  {
  }

  method LikeToRegexp(pattern: string) returns (sb: string)
    ensures sb == LikeText(pattern)
  {
    sb := CASELESS;
    var i := 0;
    while i < |pattern|
      invariant 0 <= i <= |pattern|
      invariant LikeText(pattern) == sb + EmitAll(Tokens(pattern[i..]))
    {
      ghost var rest := pattern[i..];
      assert rest[1..] == pattern[i + 1..];
      match pattern[i] {
        case '%' =>
          EmitCons(AnyRun, Tokens(rest[1..]), sb);
          sb := sb + ".*";
        case '_' =>
          EmitCons(AnyOne, Tokens(rest[1..]), sb);
          sb := sb + ".";
        case '\\' =>
          if i + 1 < |pattern| {
            EmitCons(Exactly(rest[1]), Tokens(rest[2..]), sb);
            assert rest[2..] == pattern[i + 2..];
            i := i + 1;
            sb := sb + QuoteMeta(pattern[i]);
          }
        case _ =>
          EmitCons(Exactly(rest[0]), Tokens(rest[1..]), sb);
          sb := sb + QuoteMeta(pattern[i]);
      }
      i := i + 1;
    }
    assert pattern[i..] == [];
  }

  function ItemOf(t: Token): Item {
    match t
    case AnyRun => Many(Dot)
    case AnyOne => One(Dot)
    case Exactly(c) => One(Char(c))
  }

  function ItemsOf(ts: seq<Token>): (items: seq<Item>)
    ensures |items| == |ts|
  {
    seq(|ts|, k requires 0 <= k < |ts| => ItemOf(ts[k]))
  }

  lemma ItemsOfFirst(ts: seq<Token>)
    requires ts != []
    ensures ItemsOf(ts) == [ItemOf(ts[0])] + ItemsOf(ts[1..])
  {
  }

  lemma NeverStartsStarred(ts: seq<Token>)
    ensures EmitAll(ts) != [] ==> EmitAll(ts)[0] != '*'
  {
    if ts != [] {
      assert '*' in META;
    }
  }

  /** Quoting leaks no operator: the emitted text reads back as the tokens, whatever they are. */
  lemma {:induction false} EmittedTextReadsBack(ts: seq<Token>)
    ensures ReadItems(EmitAll(ts)) == Some(ItemsOf(ts))
  {
    if ts != [] {
      var head, tail := Emit(ts[0]), EmitAll(ts[1..]);
      EmittedTextReadsBack(ts[1..]);
      ItemsOfFirst(ts);
      NeverStartsStarred(ts[1..]);
      assert EmitAll(ts) == head + tail;
      match ts[0] {
        case AnyRun =>
          assert (head + tail)[1..] == "*" + tail && ("*" + tail)[1..] == tail;
        case AnyOne =>
          assert (head + tail)[1..] == tail;
        case Exactly(c) =>
          assert (head + tail)[|head|..] == tail;
      }
    }
  }

  lemma CompiledTokens(pattern: string)
    ensures Compile(LikeText(pattern)) == Some(ItemsOf(Tokens(pattern)))
  {
    EmittedTextReadsBack(Tokens(pattern));
    assert LikeText(pattern)[|CASELESS|..] == EmitAll(Tokens(pattern));
  }

  // ---------- Meaning ----------

  lemma FirstPiece(fold: char -> char, lines: bool, ts: seq<Token>, s: string) returns (piece: string, rest: string)
    requires ts != [] && LikeMatches(fold, lines, ts, s)
    ensures s == piece + rest && Fits(fold, lines, ts[0], piece) && LikeMatches(fold, lines, ts[1..], rest)
  {
    var pieces :| Cuts(fold, lines, ts, pieces, s);
    piece, rest := pieces[0], Join(pieces[1..]);
    assert Cuts(fold, lines, ts[1..], pieces[1..], rest);
  }

  lemma OnePieceMore(fold: char -> char, lines: bool, ts: seq<Token>, piece: string, rest: string)
    requires ts != [] && Fits(fold, lines, ts[0], piece) && LikeMatches(fold, lines, ts[1..], rest)
    ensures LikeMatches(fold, lines, ts, piece + rest)
  {
    var pieces :| Cuts(fold, lines, ts[1..], pieces, rest);
    assert Cuts(fold, lines, ts, [piece] + pieces, piece + rest);
  }

  /** Backtracking consumption succeeds exactly when the text can be cut piece by piece. */
  lemma {:induction false} ConsumesIsLikeMatches(fold: char -> char, ts: seq<Token>, s: string)
    ensures Consumes(fold, ItemsOf(ts), s) <==> LikeMatches(fold, false, ts, s)
    decreases |ts| + |s|
  {
    if ts == [] {
      if LikeMatches(fold, false, ts, s) {
        var pieces :| Cuts(fold, false, ts, pieces, s);
      } else if s == [] {
        assert Cuts(fold, false, ts, [], s);
      }
    } else {
      ItemsOfFirst(ts);
      if Consumes(fold, ItemsOf(ts), s) {
        ConsumesCuts(fold, ts, s);
      }
      if LikeMatches(fold, false, ts, s) {
        CutsConsume(fold, ts, s);
      }
    }
  }

  lemma {:induction false} ConsumesCuts(fold: char -> char, ts: seq<Token>, s: string)
    requires ts != [] && Consumes(fold, ItemsOf(ts), s)
    ensures LikeMatches(fold, false, ts, s)
    decreases |ts| + |s|, 0
  {
    ItemsOfFirst(ts);
    if ts[0] != AnyRun {
      ConsumesIsLikeMatches(fold, ts[1..], s[1..]);
      var pieces :| Cuts(fold, false, ts[1..], pieces, s[1..]);
      assert Cuts(fold, false, ts, [[s[0]]] + pieces, s);
    } else if Consumes(fold, ItemsOf(ts[1..]), s) {
      ConsumesIsLikeMatches(fold, ts[1..], s);
      var pieces :| Cuts(fold, false, ts[1..], pieces, s);
      assert Cuts(fold, false, ts, [""] + pieces, s);
    } else {
      ConsumesIsLikeMatches(fold, ts, s[1..]);
      var pieces :| Cuts(fold, false, ts, pieces, s[1..]);
      var longer := pieces[0 := [s[0]] + pieces[0]];
      assert longer[1..] == pieces[1..];
      assert Cuts(fold, false, ts, longer, s);
    }
  }

  lemma {:induction false} CutsConsume(fold: char -> char, ts: seq<Token>, s: string)
    requires ts != [] && LikeMatches(fold, false, ts, s)
    ensures Consumes(fold, ItemsOf(ts), s)
    decreases |ts| + |s|, 0
  {
    ItemsOfFirst(ts);
    var pieces :| Cuts(fold, false, ts, pieces, s);
    var first, rest := pieces[0], Join(pieces[1..]);
    assert s == first + rest;
    assert Cuts(fold, false, ts[1..], pieces[1..], rest);
    assert Fits(fold, false, ts[0], first);
    if first == "" {
      assert s == rest;
      ConsumesIsLikeMatches(fold, ts[1..], s);
    } else if ts[0] == AnyRun {
      var shorter := pieces[0 := first[1..]];
      assert shorter[1..] == pieces[1..];
      assert s[1..] == first[1..] + rest;
      assert Cuts(fold, false, ts, shorter, s[1..]);
      ConsumesIsLikeMatches(fold, ts, s[1..]);
    } else {
      assert s[1..] == rest;
      ConsumesIsLikeMatches(fold, ts[1..], s[1..]);
    }
  }

  /** Searching with the compiled pattern succeeds exactly when some stretch of the
      subject matches the pattern, a wildcard covering no newline. */
  lemma SearchMeansSomeStretchMatches(fold: char -> char, pattern: string, s: string)
    ensures Compile(LikeText(pattern)).Some?
    ensures Finds(fold, Compile(LikeText(pattern)).value, s)
       <==> exists i, j :: 0 <= i <= j <= |s| && LikeMatches(fold, false, Tokens(pattern), s[i..j])
  {
    CompiledTokens(pattern);
    forall i, j | 0 <= i <= j <= |s|
      ensures Consumes(fold, ItemsOf(Tokens(pattern)), s[i..j]) <==> LikeMatches(fold, false, Tokens(pattern), s[i..j])
    {
      ConsumesIsLikeMatches(fold, Tokens(pattern), s[i..j]);
    }
  }
}
