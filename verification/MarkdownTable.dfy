// The report's Markdown tables: how cells are escaped, and that a table can be
// read back, whatever text an attacker put in it.
module MarkdownTable {
  import opened Common

  // ---------- Escaping ----------

  /** strings.ReplaceAll of one character. */
  function ReplaceAll(s: string, c: char, with: string): string {
    if s == [] then "" else (if s[0] == c then with else [s[0]]) + ReplaceAll(s[1..], c, with)
  }

  function MdEscape(s: string): string {
    ReplaceAll(ReplaceAll(ReplaceAll(s, '|', "\\|"), '\r', " "), '\n', " ")
  }

  const MAX_SQL_LEN := 200

  /** Shortens a statement, given as its runes, and marks the cut with an ellipsis. */
  function TruncateSQL(s: string): string {
    if |s| <= MAX_SQL_LEN then s else s[..MAX_SQL_LEN] + "\U{2026}"
  }

  /** Shortening keeps the first 200 runes, bounds the length, and shows, except for a text
      that itself is 200 runes and an ellipsis. */
  lemma TruncationShows(s: string)
    ensures var kept := if |s| <= 200 then |s| else 200;
            |TruncateSQL(s)| <= 200 + 1 && s[..kept] <= TruncateSQL(s)
    ensures TruncateSQL(s) == s <==> |s| <= 200 || (|s| == 200 + 1 && s[200] == '\U{2026}')
  {
    if |s| == 200 + 1 && s[200] == '\U{2026}' {
      assert s == s[..200] + [s[200]];
    } else if |s| > 200 {
      assert TruncateSQL(s)[200] == '\U{2026}';
    }
  }

  function FlatChar(c: char): char {
    if c == '\r' || c == '\n' then ' ' else c
  }

  /** The text with line ends turned to spaces: all a table cell can keep of it. */
  function Flat(s: string): (r: string)
    ensures |r| == |s| && forall k :: 0 <= k < |s| ==> r[k] == FlatChar(s[k])
  {
    seq(|s|, k requires 0 <= k < |s| => FlatChar(s[k]))
  }

  /** What a cell loses: line ends become spaces, and nothing else changes. */
  lemma FlatLoses(s: string, k: nat)
    requires k < |s|
    ensures Flat(s)[k] == if s[k] in "\r\n" then ' ' else s[k]
  {
  }

  /** Escaping works character by character: a pipe gets a backslash, a line end a space. */
  function EscapeChar(c: char): string {
    if c == '|' then "\\|" else [FlatChar(c)]
  }

  lemma {:induction false} EscapeFirst(s: string)
    requires s != []
    ensures MdEscape(s) == EscapeChar(s[0]) + MdEscape(s[1..])
  {
    var rest := ReplaceAll(s[1..], '|', "\\|");
    if s[0] == '|' {
      assert ("\\|" + rest)[1..] == "|" + rest && ("|" + rest)[1..] == rest;
      var r := ReplaceAll(rest, '\r', " ");
      assert ReplaceAll("|" + rest, '\r', " ") == "|" + r;
      assert ReplaceAll("\\|" + rest, '\r', " ") == "\\" + ("|" + r);
      assert ("\\" + ("|" + r))[1..] == "|" + r && ("|" + r)[1..] == r;
      var n := ReplaceAll(r, '\n', " ");
      assert ReplaceAll("|" + r, '\n', " ") == "|" + n;
      assert "\\" + ("|" + n) == "\\|" + n;
    } else {
      var c := s[0];
      assert ([c] + rest)[1..] == rest;
      var d := if c == '\r' then ' ' else c;
      var r := ReplaceAll(rest, '\r', " ");
      assert ReplaceAll([c] + rest, '\r', " ") == [d] + r;
      assert ([d] + r)[1..] == r;
    }
  }

  // ---------- Reading a row back ----------

  /** Cuts a line at the pipes that do not directly follow a backslash. */
  function SplitAtPipes(before: char, line: string): (pieces: seq<string>)
    ensures pieces != []
    decreases |line|
  {
    if line == [] then [""]
    else if line[0] == '|' && before != '\\' then [""] + SplitAtPipes('|', line[1..])
    else
      var rest := SplitAtPipes(line[0], line[1..]);
      [[line[0]] + rest[0]] + rest[1..]
  }

  /** Removes one space of padding at each side. */
  function Unpad(piece: string): string {
    if |piece| >= 2 && piece[0] == ' ' && piece[|piece| - 1] == ' ' then piece[1..|piece| - 1] else piece
  }

  function Unescape(s: string): string
    decreases |s|
  {
    if s == [] then ""
    else if s[0] == '\\' && |s| > 1 && s[1] == '|' then "|" + Unescape(s[2..])
    else [s[0]] + Unescape(s[1..])
  }

  function ReadCells(pieces: seq<string>): (cells: seq<string>)
    ensures |cells| == |pieces| && forall k :: 0 <= k < |pieces| ==> cells[k] == Unescape(Unpad(pieces[k]))
  {
    seq(|pieces|, k requires 0 <= k < |pieces| => Unescape(Unpad(pieces[k])))
  }

  /** The cells of a table row: what stands between the pipes. */
  function ReadRow(line: string): seq<string> {
    var pieces := SplitAtPipes(' ', line);
    if |pieces| < 2 then [] else ReadCells(pieces[1..|pieces| - 1])
  }

  lemma NeverStartsWithPipe(s: string)
    ensures MdEscape(s) != [] ==> MdEscape(s)[0] != '|'
  {
    if s != [] {
      EscapeFirst(s);
    }
  }

  lemma {:induction false} UnescapeEscaped(s: string)
    ensures Unescape(MdEscape(s)) == Flat(s)
  {
    if s != [] {
      EscapeFirst(s);
      UnescapeEscaped(s[1..]);
      NeverStartsWithPipe(s[1..]);
      var tail := MdEscape(s[1..]);
      assert Flat(s) == [FlatChar(s[0])] + Flat(s[1..]);
      if s[0] == '|' {
        assert ("\\|" + tail)[2..] == tail;
      } else {
        assert ([FlatChar(s[0])] + tail)[1..] == tail;
      }
    }
  }

  lemma PieceGrows(before: char, c: char, line: string, first: string, others: seq<string>)
    requires c != '|' || before == '\\'
    requires SplitAtPipes(c, line) == [first] + others
    ensures SplitAtPipes(before, [c] + line) == [[c] + first] + others
  {
  }

  lemma EmptyCellPiece(before: char, rest: string)
    ensures SplitAtPipes(before, "" + " |" + rest) == ["" + " "] + SplitAtPipes('|', rest)
  {
    assert "" + " |" + rest == [' '] + ("|" + rest) && ("|" + rest)[1..] == rest;
    PieceGrows(before, ' ', "|" + rest, "", SplitAtPipes('|', rest));
    assert [' '] + "" == "" + " ";
  }

  /** An escaped pipe lengthens the piece that follows it. */
  lemma PipePiece(before: char, tail: string, rest: string)
    requires SplitAtPipes('|', tail + " |" + rest) == [tail + " "] + SplitAtPipes('|', rest)
    ensures SplitAtPipes(before, "\\|" + tail + " |" + rest) == ["\\|" + tail + " "] + SplitAtPipes('|', rest)
  {
    hide SplitAtPipes;
    var line, piece, others := tail + " |" + rest, tail + " ", SplitAtPipes('|', rest);
    PieceGrows('\\', '|', line, piece, others);
    PieceGrows(before, '\\', ['|'] + line, ['|'] + piece, others);
    assert "\\|" + tail + " |" + rest == ['\\'] + (['|'] + line);
    assert "\\|" + tail + " " == ['\\'] + (['|'] + piece);
  }

  lemma EscapeNothing()
    ensures MdEscape("") == ""
  {
  }

  /** An escaped cell followed by a space is one piece: no pipe inside it cuts. */
  lemma {:induction false} EscapedCellIsOnePiece(before: char, s: string, rest: string)
    ensures SplitAtPipes(before, MdEscape(s) + " |" + rest) == [MdEscape(s) + " "] + SplitAtPipes('|', rest)
    decreases |s|
  {
    hide MdEscape, SplitAtPipes;
    if s == [] {
      EscapeNothing();
      EmptyCellPiece(before, rest);
    } else {
      EscapeFirst(s);
      var tail, c := MdEscape(s[1..]), FlatChar(s[0]);
      if s[0] == '|' {
        EscapedCellIsOnePiece('|', s[1..], rest);
        PipePiece(before, tail, rest);
      } else {
        EscapedCellIsOnePiece(c, s[1..], rest);
        PieceGrows(before, c, tail + " |" + rest, tail + " ", SplitAtPipes('|', rest));
        assert MdEscape(s) + " |" + rest == [c] + (tail + " |" + rest);
        assert MdEscape(s) + " " == [c] + (tail + " ");
      }
    }
  }

  // ---------- Rows ----------

  /** The cells of a row after its first pipe, each escaped, padded and closed by a pipe. */
  function RowBody(cells: seq<string>): string {
    if cells == [] then "" else " " + MdEscape(cells[0]) + " |" + RowBody(cells[1..])
  }

  function RenderRow(cells: seq<string>): string {
    "|" + RowBody(cells)
  }

  function FlatAll(cells: seq<string>): (r: seq<string>)
    ensures |r| == |cells| && forall k :: 0 <= k < |cells| ==> r[k] == Flat(cells[k])
  {
    seq(|cells|, k requires 0 <= k < |cells| => Flat(cells[k]))
  }

  function PaddedAll(cells: seq<string>): (r: seq<string>)
    ensures |r| == |cells| && forall k :: 0 <= k < |cells| ==> r[k] == " " + MdEscape(cells[k]) + " "
  {
    seq(|cells|, k requires 0 <= k < |cells| => " " + MdEscape(cells[k]) + " ")
  }

  lemma {:induction false} BodyPieces(cells: seq<string>)
    ensures SplitAtPipes('|', RowBody(cells)) == PaddedAll(cells) + [""]
  {
    hide MdEscape, PaddedAll;
    if cells != [] {
      var cell, rest := MdEscape(cells[0]), RowBody(cells[1..]);
      BodyPieces(cells[1..]);
      EscapedCellIsOnePiece(' ', cells[0], rest);
      PieceGrows('|', ' ', cell + " |" + rest, cell + " ", SplitAtPipes('|', rest));
      assert RowBody(cells) == [' '] + (cell + " |" + rest);
      assert [' '] + (cell + " ") == " " + cell + " ";
      assert PaddedAll(cells) == [" " + cell + " "] + PaddedAll(cells[1..]);
    }
  }

  lemma RowPieces(cells: seq<string>)
    ensures SplitAtPipes(' ', RenderRow(cells)) == [""] + PaddedAll(cells) + [""]
  {
    hide RowBody, PaddedAll;
    BodyPieces(cells);
    assert ("|" + RowBody(cells))[1..] == RowBody(cells);
  }

  lemma UnpadPadded(s: string)
    ensures Unpad(" " + s + " ") == s
  {
  }

  /** Reading a rendered row recovers every cell, whatever its text. */
  lemma RowRoundTrips(cells: seq<string>)
    ensures ReadRow(RenderRow(cells)) == FlatAll(cells)
  {
    hide MdEscape, RenderRow, SplitAtPipes, Unpad, Unescape, PaddedAll;
    RowPieces(cells);
    var padded := PaddedAll(cells);
    assert ([""] + padded + [""])[1..|padded| + 1] == padded;
    forall k | 0 <= k < |cells|
      ensures ReadCells(padded)[k] == Flat(cells[k])
    {
      UnpadPadded(MdEscape(cells[k]));
      UnescapeEscaped(cells[k]);
    }
  }

  /** Lines end at a newline, a carriage return, or both. */
  predicate IsLineEnd(c: char) {
    c == '\n' || c == '\r'
  }

  predicate OneLine(s: string) {
    forall k :: 0 <= k < |s| ==> !IsLineEnd(s[k])
  }

  lemma {:induction false} EscapedHasNoLineEnd(s: string)
    ensures OneLine(MdEscape(s))
  {
    if s != [] {
      EscapeFirst(s);
      EscapedHasNoLineEnd(s[1..]);
    }
  }

  lemma {:induction false} BodyIsOneLine(cells: seq<string>)
    ensures OneLine(RowBody(cells))
  {
    if cells != [] {
      EscapedHasNoLineEnd(cells[0]);
      BodyIsOneLine(cells[1..]);
    }
  }

  // ---------- Tables ----------

  function Dashes(n: nat): (r: string)
    ensures |r| == n && forall k :: 0 <= k < n ==> r[k] == '-'
  {
    seq(n, _ => '-')
  }

  /** The delimiter row under a header: dashes as wide as each padded column name. */
  function Delimiter(header: seq<string>): string {
    if header == [] then "|" else "|" + (Dashes(|header[0]| + 2) + Delimiter(header[1..]))
  }

  function RowLines(rows: seq<seq<string>>): string {
    if rows == [] then "" else RowLines(rows[..|rows| - 1]) + RenderRow(rows[|rows| - 1]) + "\n"
  }

  function TableText(header: seq<string>, rows: seq<seq<string>>): string {
    RenderRow(header) + ("\n" + (Delimiter(header) + ("\n" + RowLines(rows))))
  }

  function LineLength(s: string): (n: nat)
    ensures n <= |s| && OneLine(s[..n]) && (n < |s| ==> IsLineEnd(s[n]))
  {
    if s == [] || IsLineEnd(s[0]) then 0
    else
      assert s[..1 + LineLength(s[1..])] == [s[0]] + s[1..][..LineLength(s[1..])];
      1 + LineLength(s[1..])
  }

  /** The lines of a text in which every line is ended. */
  function Lines(s: string): seq<string>
    decreases |s|
  {
    var n := LineLength(s);
    if n == |s| then []
    else if s[n] == '\r' && n + 1 < |s| && s[n + 1] == '\n' then [s[..n]] + Lines(s[n + 2..])
    else [s[..n]] + Lines(s[n + 1..])
  }

  datatype ParsedTable = ParsedTable(header: seq<string>, rows: seq<seq<string>>)

  predicate IsDashes(s: string) {
    s != [] && forall k :: 0 <= k < |s| ==> s[k] == '-'
  }

  /** A delimiter row of `n` cells, each of dashes only, between pipes. */
  predicate IsDelimiter(line: string, n: nat) {
    var pieces := SplitAtPipes(' ', line);
    && |pieces| == n + 2 && pieces[0] == "" && pieces[n + 1] == ""
    && forall k :: 1 <= k <= n ==> IsDashes(pieces[k])
  }

  function ReadRows(lines: seq<string>): (rows: seq<seq<string>>)
    ensures |rows| == |lines| && forall k :: 0 <= k < |lines| ==> rows[k] == ReadRow(lines[k])
  {
    seq(|lines|, k requires 0 <= k < |lines| => ReadRow(lines[k]))
  }

  /** Reads a table: a header of at least one cell, a delimiter row of as many cells, and
      rows of as many cells each. */
  function ReadTable(text: string): Option<ParsedTable> {
    var lines := Lines(text);
    if |lines| < 2 then None
    else
      var header, rows := ReadRow(lines[0]), ReadRows(lines[2..]);
      if header == [] || !IsDelimiter(lines[1], |header|) then None
      else if exists k :: 0 <= k < |rows| && |rows[k]| != |header| then None
      else Some(ParsedTable(header, rows))
  }

  lemma {:induction false} FirstLineLength(line: string, rest: string)
    requires OneLine(line)
    ensures LineLength(line + ("\n" + rest)) == |line|
  {
    if line == [] {
      assert line + ("\n" + rest) == "\n" + rest;
    } else {
      assert (line + ("\n" + rest))[1..] == line[1..] + ("\n" + rest);
      FirstLineLength(line[1..], rest);
    }
  }

  lemma FirstLine(line: string, rest: string)
    requires OneLine(line)
    ensures Lines(line + ("\n" + rest)) == [line] + Lines(rest)
  {
    hide LineLength;
    FirstLineLength(line, rest);
    var s := line + ("\n" + rest);
    assert s[..|line|] == line && s[|line| + 1..] == rest;
  }

  function RenderAll(rows: seq<seq<string>>): (r: seq<string>)
    ensures |r| == |rows| && forall k :: 0 <= k < |rows| ==> r[k] == RenderRow(rows[k])
  {
    seq(|rows|, k requires 0 <= k < |rows| => RenderRow(rows[k]))
  }

  lemma RowIsOneLine(cells: seq<string>)
    ensures OneLine(RenderRow(cells))
  {
    BodyIsOneLine(cells);
  }

  lemma {:induction false} LinesOfRows(rows: seq<seq<string>>, rest: string)
    ensures Lines(RowLines(rows) + rest) == RenderAll(rows) + Lines(rest)
  {
    hide Lines, RenderRow;
    if rows == [] {
      assert RowLines(rows) + rest == rest;
    } else {
      var init, last := rows[..|rows| - 1], RenderRow(rows[|rows| - 1]);
      RowIsOneLine(rows[|rows| - 1]);
      FirstLine(last, rest);
      LinesOfRows(init, last + ("\n" + rest));
      assert RowLines(rows) + rest == RowLines(init) + (last + ("\n" + rest));
      assert RenderAll(rows) == RenderAll(init) + [last];
    }
  }

  lemma {:induction false} DelimiterIsOneLine(header: seq<string>)
    ensures OneLine(Delimiter(header))
  {
    if header != [] {
      DelimiterIsOneLine(header[1..]);
    }
  }

  /** Dashes before a pipe are one piece. */
  lemma {:induction false} DashesArePiece(before: char, n: nat, rest: string)
    requires n > 0 && rest != [] && rest[0] == '|'
    ensures SplitAtPipes(before, Dashes(n) + rest) == [Dashes(n)] + SplitAtPipes('-', rest)[1..]
    decreases n
  {
    assert (Dashes(n) + rest) == ['-'] + (Dashes(n - 1) + rest);
    if n == 1 {
      assert Dashes(0) + rest == rest;
      PieceGrows(before, '-', rest, "", SplitAtPipes('-', rest)[1..]);
      assert ['-'] + "" == Dashes(1);
    } else {
      DashesArePiece('-', n - 1, rest);
      PieceGrows(before, '-', Dashes(n - 1) + rest, Dashes(n - 1), SplitAtPipes('-', rest)[1..]);
      assert ['-'] + Dashes(n - 1) == Dashes(n);
    }
  }

  lemma PipeCuts(before: char, rest: string)
    requires before != '\\'
    ensures SplitAtPipes(before, "|" + rest) == [""] + SplitAtPipes('|', rest)
  {
    assert ("|" + rest)[1..] == rest;
  }

  /** The delimiter row is as wide as the header it stands under. */
  lemma {:induction false} DelimiterIsAsWide(header: seq<string>)
    requires forall k :: 0 <= k < |header| ==> MdEscape(header[k]) == header[k]
    ensures |Delimiter(header)| == |RenderRow(header)|
  {
    hide MdEscape;
    if header != [] {
      DelimiterIsAsWide(header[1..]);
    }
  }

  lemma DelimiterStarts(header: seq<string>)
    ensures Delimiter(header) != [] && Delimiter(header)[0] == '|'
    ensures header != [] ==>
      Delimiter(header) == "|" + (Dashes(|header[0]| + 2) + Delimiter(header[1..]))
  {
  }

  lemma {:induction false} DelimiterPieces(header: seq<string>, before: char)
    requires before != '\\'
    ensures var pieces := SplitAtPipes(before, Delimiter(header));
            && |pieces| == |header| + 2 && pieces[0] == "" && pieces[|header| + 1] == ""
            && forall k :: 1 <= k <= |header| ==> IsDashes(pieces[k])
  {
    if header == [] {
      PipeCuts(before, "");
      assert "|" + "" == "|";
    } else {
      hide SplitAtPipes, Dashes, Delimiter;
      var n, rest := |header[0]| + 2, Delimiter(header[1..]);
      DelimiterPieces(header[1..], '-');
      DelimiterStarts(header);
      DelimiterStarts(header[1..]);
      DashesArePiece('|', n, rest);
      PipeCuts(before, Dashes(n) + rest);
    }
  }

  function FlatRows(rows: seq<seq<string>>): (r: seq<seq<string>>)
    ensures |r| == |rows| && forall k :: 0 <= k < |rows| ==> r[k] == FlatAll(rows[k])
  {
    seq(|rows|, k requires 0 <= k < |rows| => FlatAll(rows[k]))
  }

  lemma NoLines()
    ensures Lines("") == []
  {
  }

  /** The lines of a table are its header, its delimiter row and one line for each row. */
  lemma LinesOfTable(header: seq<string>, rows: seq<seq<string>>)
    ensures Lines(TableText(header, rows)) == [RenderRow(header), Delimiter(header)] + RenderAll(rows)
  {
    hide Lines, RenderRow;
    var first, second, body := RenderRow(header), Delimiter(header), RowLines(rows);
    RowIsOneLine(header);
    DelimiterIsOneLine(header);
    assert TableText(header, rows) == first + ("\n" + (second + ("\n" + body)));
    FirstLine(first, second + ("\n" + body));
    FirstLine(second, body);
    LinesOfRows(rows, "");
    NoLines();
    assert body + "" == body;
  }

  lemma RowsReadBack(rows: seq<seq<string>>)
    ensures ReadRows(RenderAll(rows)) == FlatRows(rows)
  {
    hide ReadRow, FlatAll, RenderRow;
    forall k | 0 <= k < |rows|
      ensures ReadRows(RenderAll(rows))[k] == FlatRows(rows)[k]
    {
      RowRoundTrips(rows[k]);
    }
  }

  /** A table is read back, as the header and the rows it was made of and for arbitrary cell
      texts, exactly when it has a column and every row has the cells of the header: only
      line ends inside a cell become spaces. */
  lemma TableRoundTrips(header: seq<string>, rows: seq<seq<string>>)
    ensures ReadTable(TableText(header, rows))
         == if header != [] && forall k :: 0 <= k < |rows| ==> |rows[k]| == |header|
            then Some(ParsedTable(FlatAll(header), FlatRows(rows))) else None
  {
    hide Lines, RenderRow, ReadRow, FlatAll, SplitAtPipes, TableText, IsDashes, Delimiter;
    LinesOfTable(header, rows);
    RowRoundTrips(header);
    DelimiterPieces(header, ' ');
    RowsReadBack(rows);
    assert ([RenderRow(header), Delimiter(header)] + RenderAll(rows))[2..] == RenderAll(rows);
    var flat := FlatRows(rows);
    assert forall k :: 0 <= k < |rows| ==> |flat[k]| == |FlatAll(rows[k])| == |rows[k]|;
  }
}
