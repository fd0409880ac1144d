// What a LIKE pattern means, character by character of its text, and what the evaluator
// makes of it.
module LikePatterns {
  import opened Values
  import opened LikeRegexp
  import opened ExprEval

  /** The whole of `s` matches the pattern text. */
  ghost predicate Fitting(fold: char -> char, lines: bool, pattern: string, s: string) {
    LikeMatches(fold, lines, Tokens(pattern), s)
  }

  /** `s` begins with a character that case-folds with `c`, and the rest matches. */
  ghost predicate FitsAfter(fold: char -> char, lines: bool, c: char, pattern: string, s: string) {
    s != "" && fold(s[0]) == fold(c) && Fitting(fold, lines, pattern, s[1..])
  }

  lemma NothingFits(fold: char -> char, lines: bool, s: string)
    ensures LikeMatches(fold, lines, [], s) <==> s == ""
  {
    if s == "" {
      assert Cuts(fold, lines, [], [], s);
    }
  }

  lemma LiteralFits(fold: char -> char, lines: bool, c: char, ts: seq<Token>, s: string)
    ensures LikeMatches(fold, lines, [Exactly(c)] + ts, s)
       <==> s != "" && fold(s[0]) == fold(c) && LikeMatches(fold, lines, ts, s[1..])
  {
    hide LikeMatches;
    var all := [Exactly(c)] + ts;
    assert all[1..] == ts;
    if LikeMatches(fold, lines, all, s) {
      var piece, rest := FirstPiece(fold, lines, all, s);
      assert s[0] == piece[0] && s[1..] == rest;
    }
    if s != "" && fold(s[0]) == fold(c) && LikeMatches(fold, lines, ts, s[1..]) {
      OnePieceMore(fold, lines, all, [s[0]], s[1..]);
      assert s == [s[0]] + s[1..];
    }
  }

  lemma OneFits(fold: char -> char, lines: bool, ts: seq<Token>, s: string)
    ensures LikeMatches(fold, lines, [AnyOne] + ts, s)
       <==> s != "" && (lines || s[0] != '\n') && LikeMatches(fold, lines, ts, s[1..])
  {
    hide LikeMatches;
    var all := [AnyOne] + ts;
    assert all[1..] == ts;
    if LikeMatches(fold, lines, all, s) {
      var piece, rest := FirstPiece(fold, lines, all, s);
      assert s[0] == piece[0] && s[1..] == rest;
    }
    if s != "" && (lines || s[0] != '\n') && LikeMatches(fold, lines, ts, s[1..]) {
      OnePieceMore(fold, lines, all, [s[0]], s[1..]);
      assert s == [s[0]] + s[1..];
    }
  }

  lemma RunFits(fold: char -> char, lines: bool, ts: seq<Token>, s: string)
    ensures LikeMatches(fold, lines, [AnyRun] + ts, s)
       <==> exists i :: 0 <= i <= |s| && (lines || '\n' !in s[..i]) && LikeMatches(fold, lines, ts, s[i..])
  {
    hide LikeMatches;
    var all := [AnyRun] + ts;
    assert all[1..] == ts;
    if LikeMatches(fold, lines, all, s) {
      var piece, rest := FirstPiece(fold, lines, all, s);
      assert s[..|piece|] == piece && s[|piece|..] == rest;
    }
    if i :| 0 <= i <= |s| && (lines || '\n' !in s[..i]) && LikeMatches(fold, lines, ts, s[i..]) {
      OnePieceMore(fold, lines, all, s[..i], s[i..]);
      assert s == s[..i] + s[i..];
    }
  }

  lemma TokensOf(c: char, p: string)
    ensures Tokens("") == [] && Tokens("\\") == []
    ensures Tokens("%" + p) == [AnyRun] + Tokens(p) && Tokens("_" + p) == [AnyOne] + Tokens(p)
    ensures Tokens("\\" + ([c] + p)) == [Exactly(c)] + Tokens(p)
    ensures c !in "%_\\" ==> Tokens([c] + p) == [Exactly(c)] + Tokens(p)
  {
    assert ("%" + p)[1..] == p && ("_" + p)[1..] == p && ([c] + p)[1..] == p;
    assert ("\\" + ([c] + p))[2..] == p;
  }

  /** The meaning of a pattern: `%` stands for any run, `_` for any one character, a
      backslash makes the next character stand for itself, every other character stands for
      itself up to case, and nothing, or a lone backslash, for the empty text. `lines` says
      whether `%` and `_` cover newlines. */
  lemma PatternMeans(fold: char -> char, lines: bool, c: char, p: string, s: string)
    ensures Fitting(fold, lines, "", s) <==> s == ""
    ensures Fitting(fold, lines, "\\", s) <==> s == ""
    ensures Fitting(fold, lines, "%" + p, s)
       <==> exists i :: 0 <= i <= |s| && (lines || '\n' !in s[..i]) && Fitting(fold, lines, p, s[i..])
    ensures Fitting(fold, lines, "_" + p, s)
       <==> s != "" && (lines || s[0] != '\n') && Fitting(fold, lines, p, s[1..])
    ensures Fitting(fold, lines, "\\" + ([c] + p), s) <==> FitsAfter(fold, lines, c, p, s)
    ensures c !in "%_\\" ==> (Fitting(fold, lines, [c] + p, s) <==> FitsAfter(fold, lines, c, p, s))
  {
    hide LikeMatches, Tokens;
    TokensOf(c, p);
    NothingFits(fold, lines, s);
    RunFits(fold, lines, Tokens(p), s);
    OneFits(fold, lines, Tokens(p), s);
    LiteralFits(fold, lines, c, Tokens(p), s);
  }

  /** The text handed to the regular expression compiler, character by character: the flag
      that makes it ignore case, then `.*`, `.` or the character, quoted if it is an operator. */
  lemma TextEmitted(c: char, p: string)
    ensures LikeText("") == LikeText("\\") == "(?i)"
    ensures LikeText("%" + p) == "(?i)" + (".*" + LikeText(p)[4..])
    ensures LikeText("_" + p) == "(?i)" + ("." + LikeText(p)[4..])
    ensures LikeText("\\" + ([c] + p))
         == "(?i)" + ((if c in "\\.+*?()|[]{}^$" then ['\\', c] else [c]) + LikeText(p)[4..])
    ensures c !in "%_\\" ==> LikeText([c] + p) == LikeText("\\" + ([c] + p))
  {
    hide Tokens;
    TokensOf(c, p);
    EmitCons(AnyRun, Tokens(p), "");
    EmitCons(AnyOne, Tokens(p), "");
    EmitCons(Exactly(c), Tokens(p), "");
    assert LikeText(p)[4..] == EmitAll(Tokens(p));
  }

  /** LIKE answers NULL on NULL, and otherwise whether some stretch of the text matches the
      pattern with `%` and `_` covering no newline; NOT LIKE answers the opposite. */
  lemma LikeAnswers(host: Host, c: Context, arg: Expr, pattern: Expr, not: bool)
    ensures var v, p := Eval(host, c, arg), Eval(host, c, pattern);
            var s := host.runes(TextOf(host, v));
            Eval(host, c, Like(arg, pattern, not))
            == if v == Null || p == Null then Null
               else
                 Bool(not != exists i, j :: 0 <= i <= j <= |s| && Fitting(host.fold, false, TextOf(host, p), s[i..j]))
  {
    var v, p := Eval(host, c, arg), Eval(host, c, pattern);
    if v != Null && p != Null {
      SearchMeansSomeStretchMatches(host.fold, TextOf(host, p), host.runes(TextOf(host, v)));
    }
  }
}
