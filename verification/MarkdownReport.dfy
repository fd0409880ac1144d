// The table loops of the report, each appending rows to the text under construction.
module MarkdownReport {
  import opened Common
  import opened ReportAggregates
  import opened MarkdownTable

  datatype UserStat = UserStat(user: string, attempts: int, success: int, failure: int)

  datatype IpStat = IpStat(ip: string, events: int)

  datatype QueryStat = QueryStat(query: string, count: int)

  // ---------- Texts that need no escaping ----------

  predicate Plain(s: string) {
    forall k :: 0 <= k < |s| ==> s[k] != '|' && s[k] != '\r' && s[k] != '\n'
  }

  lemma {:induction false} PlainIsUnchanged(s: string)
    requires Plain(s)
    ensures MdEscape(s) == s && Flat(s) == s
  {
    if s != [] {
      EscapeFirst(s);
      PlainIsUnchanged(s[1..]);
    }
  }

  const DIGITS: string := "0123456789"

  function Digits(n: nat): string {
    if n < 10 then [DIGITS[n]] else Digits(n / 10) + [DIGITS[n % 10]]
  }

  /** strconv.FormatInt in base 10. */
  function Decimal(n: int): string {
    if n < 0 then "-" + Digits(-n) else Digits(n)
  }

  lemma {:induction false} DigitsArePlain(n: nat)
    ensures Plain(Digits(n))
  {
    assert Plain(DIGITS);
    if n >= 10 {
      DigitsArePlain(n / 10);
      assert DIGITS[n % 10] in DIGITS;
    } else {
      assert DIGITS[n] in DIGITS;
    }
  }

  lemma DecimalIsPlain(n: int)
    ensures Plain(Decimal(n)) && MdEscape(Decimal(n)) == Decimal(n)
  {
    DigitsArePlain(if n < 0 then -n else n);
    PlainIsUnchanged(Decimal(n));
  }

  lemma {:induction false} SignIsNoDigit(n: nat)
    ensures Digits(n) != [] && Digits(n)[0] != '-'
  {
    if n >= 10 {
      SignIsNoDigit(n / 10);
    }
  }

  /** A printed number determines the number. */
  lemma {:induction false} DigitsDetermine(m: nat, n: nat)
    requires Digits(m) == Digits(n)
    ensures m == n
  {
    assert Digits(m)[|Digits(m)| - 1] == DIGITS[m % 10] && Digits(n)[|Digits(n)| - 1] == DIGITS[n % 10];
    if m >= 10 && n >= 10 {
      assert Digits(m / 10) == Digits(m)[..|Digits(m)| - 1] == Digits(n / 10);
      DigitsDetermine(m / 10, n / 10);
    } else {
      SignIsNoDigit(m / 10);
      SignIsNoDigit(n / 10);
    }
  }

  lemma DecimalDetermines(m: int, n: int)
    requires Decimal(m) == Decimal(n)
    ensures m == n
  {
    var x, y := if m < 0 then -m else m, if n < 0 then -n else n;
    SignIsNoDigit(x);
    SignIsNoDigit(y);
    assert (m < 0) == (n < 0);
    if m < 0 {
      assert Digits(x) == Decimal(m)[1..] && Digits(y) == Decimal(n)[1..];
    }
    DigitsDetermine(x, y);
  }

  // ---------- Rows as the loops write them ----------

  /** Cells written one after the other with ` | ` between them make a row. */
  lemma TwoCells(a: string, b: string)
    ensures "| " + MdEscape(a) + " | " + MdEscape(b) + " |\n" == RenderRow([a, b]) + "\n"
  {
    hide MdEscape;
    assert RowBody([b]) == " " + MdEscape(b) + " |" + RowBody([b][1..]) && [b][1..] == [];
    assert [a, b][1..] == [b];
  }

  lemma {:induction false} RowGrows(cells: seq<string>, last: string)
    ensures RowBody(cells + [last]) == RowBody(cells) + (" " + MdEscape(last) + " |")
  {
    hide MdEscape;
    if cells == [] {
      assert cells + [last] == [last] && [last][1..] == [];
    } else {
      assert (cells + [last])[1..] == cells[1..] + [last];
      RowGrows(cells[1..], last);
    }
  }

  /** One more cell at the end of a row under construction. */
  lemma RowEnds(text: string, cells: seq<string>, last: string)
    requires text + " |\n" == RenderRow(cells) + "\n"
    ensures text + " | " + MdEscape(last) + " |\n" == RenderRow(cells + [last]) + "\n"
  {
    hide MdEscape, RowBody;
    RowGrows(cells, last);
    var row := RenderRow(cells);
    assert text + " |" == (text + " |\n")[..|text| + 2] == (row + "\n")[..|row|] == row;
    assert RenderRow(cells + [last]) == row + (" " + MdEscape(last) + " |");
  }

  lemma ThreeCells(a: string, b: string, c: string)
    ensures "| " + MdEscape(a) + " | " + MdEscape(b) + " | " + MdEscape(c) + " |\n" == RenderRow([a, b, c]) + "\n"
  {
    hide MdEscape, RowBody;
    TwoCells(a, b);
    assert [a, b] + [c] == [a, b, c];
    RowEnds("| " + MdEscape(a) + " | " + MdEscape(b), [a, b], c);
  }

  lemma FourCells(a: string, b: string, c: string, d: string)
    ensures "| " + MdEscape(a) + " | " + MdEscape(b) + " | " + MdEscape(c) + " | " + MdEscape(d) + " |\n"
         == RenderRow([a, b, c, d]) + "\n"
  {
    hide MdEscape, RowBody;
    ThreeCells(a, b, c);
    assert [a, b, c] + [d] == [a, b, c, d];
    RowEnds("| " + MdEscape(a) + " | " + MdEscape(b) + " | " + MdEscape(c), [a, b, c], d);
  }

  lemma FiveCells(a: string, b: string, c: string, d: string, e: string)
    ensures "| " + MdEscape(a) + " | " + MdEscape(b) + " | " + MdEscape(c) + " | " + MdEscape(d)
            + " | " + MdEscape(e) + " |\n"
         == RenderRow([a, b, c, d, e]) + "\n"
  {
    hide MdEscape, RowBody;
    FourCells(a, b, c, d);
    assert [a, b, c, d] + [e] == [a, b, c, d, e];
    RowEnds("| " + MdEscape(a) + " | " + MdEscape(b) + " | " + MdEscape(c) + " | " + MdEscape(d), [a, b, c, d], e);
  }

  // ---------- Tables ----------

  /** The header and delimiter lines every table opens with. */
  function Head(header: seq<string>): string {
    RenderRow(header) + "\n" + Delimiter(header) + "\n"
  }

  /** One turn of a table loop: the next row's line after the lines so far. */
  lemma OneMoreRow(header: seq<string>, rows: seq<seq<string>>, next: seq<string>, b: string, line: string)
    requires b == TableText(header, rows) && line == RenderRow(next) + "\n"
    ensures b + line == TableText(header, rows + [next])
  {
  }

  const USERS := ["user", "attempts", "success", "failure"]
  const IPS := ["ip", "events"]
  const SESSIONS := ["fp", "ip", "user", "logins", "commands"]
  const QUERIES := ["query", "count"]
  const COMMANDS := ["time", "db", "sql"]

  lemma PlainUsers()
    ensures forall k :: 0 <= k < |USERS| ==> Plain(USERS[k])
  {
  }

  lemma PlainIPs()
    ensures forall k :: 0 <= k < |IPS| ==> Plain(IPS[k])
  {
  }

  lemma PlainSessions()
    ensures forall k :: 0 <= k < |SESSIONS| ==> Plain(SESSIONS[k])
  {
  }

  lemma PlainQueries()
    ensures forall k :: 0 <= k < |QUERIES| ==> Plain(QUERIES[k])
  {
  }

  lemma PlainCommands()
    ensures forall k :: 0 <= k < |COMMANDS| ==> Plain(COMMANDS[k])
  {
  }

  function UserRow(u: UserStat): seq<string> {
    [u.user, Decimal(u.attempts), Decimal(u.success), Decimal(u.failure)]
  }

  function IpRow(s: IpStat): seq<string> {
    [s.ip, Decimal(s.events)]
  }

  function SessionRow(s: SessionStat): seq<string> {
    [s.fp, s.ip, s.user, Decimal(s.logins), Decimal(s.commands)]
  }

  function QueryRow(q: QueryStat): seq<string> {
    [TruncateSQL(q.query), Decimal(q.count)]
  }

  /** `format` prints a time, the zero time as nothing. */
  function CommandRow(format: int -> string, ev: Event): seq<string> {
    [format(ev.time), ev.db, TruncateSQL(ev.sql)]
  }

  function RowsOf<T>(row: T -> seq<string>, items: seq<T>): (rows: seq<seq<string>>)
    ensures |rows| == |items| && forall k :: 0 <= k < |items| ==> rows[k] == row(items[k])
  {
    seq(|items|, k requires 0 <= k < |items| => row(items[k]))
  }

  lemma RowsOfStep<T>(row: T -> seq<string>, items: seq<T>, i: nat)
    requires i < |items|
    ensures RowsOf(row, items[..i + 1]) == RowsOf(row, items[..i]) + [row(items[i])]
    ensures i + 1 == |items| ==> items[..i + 1] == items
  {
  }

  lemma PlainHeader(header: seq<string>)
    requires forall k :: 0 <= k < |header| ==> Plain(header[k])
    ensures FlatAll(header) == header
  {
    forall k | 0 <= k < |header|
      ensures FlatAll(header)[k] == header[k]
    {
      PlainIsUnchanged(header[k]);
    }
  }

  /** A printed table reads back as its header and its rows. */
  lemma TableReadsBack<T>(header: seq<string>, row: T -> seq<string>, items: seq<T>)
    requires header != [] && forall k :: 0 <= k < |header| ==> Plain(header[k])
    requires forall k :: 0 <= k < |items| ==> |row(items[k])| == |header|
    ensures ReadTable(TableText(header, RowsOf(row, items))) == Some(ParsedTable(header, FlatRows(RowsOf(row, items))))
  {
    hide ReadTable, TableText, Plain, FlatAll, FlatRows;
    PlainHeader(header);
    TableRoundTrips(header, RowsOf(row, items));
  }

  lemma EmptyTable<T>(header: seq<string>, row: T -> seq<string>)
    ensures Head(header) == TableText(header, RowsOf(row, []))
  {
  }

  method RenderUsers(users: seq<UserStat>) returns (b: string)
    ensures b == TableText(USERS, RowsOf(UserRow, users))
    ensures ReadTable(b) == Some(ParsedTable(USERS, FlatRows(RowsOf(UserRow, users))))
  {
    hide MdEscape, Decimal, RenderRow, TableText, RowsOf, ReadTable, FlatRows, Plain;
    b := Head(USERS);
    EmptyTable(USERS, UserRow);
    assert users[..0] == [];
    for i := 0 to |users|
      invariant b == TableText(USERS, RowsOf(UserRow, users[..i]))
    {
      var u := users[i];
      var line := "| " + MdEscape(u.user) + " | " + Decimal(u.attempts)
                  + " | " + Decimal(u.success) + " | " + Decimal(u.failure) + " |\n";
      DecimalIsPlain(u.attempts);
      DecimalIsPlain(u.success);
      DecimalIsPlain(u.failure);
      FourCells(u.user, Decimal(u.attempts), Decimal(u.success), Decimal(u.failure));
      RowsOfStep(UserRow, users, i);
      OneMoreRow(USERS, RowsOf(UserRow, users[..i]), UserRow(u), b, line);
      b := b + line;
    }
    assert users[..|users|] == users;
    PlainUsers();
    TableReadsBack(USERS, UserRow, users);
  }

  method RenderIPs(ips: seq<IpStat>) returns (b: string)
    ensures b == TableText(IPS, RowsOf(IpRow, ips))
    ensures ReadTable(b) == Some(ParsedTable(IPS, FlatRows(RowsOf(IpRow, ips))))
  {
    hide MdEscape, Decimal, RenderRow, TableText, RowsOf, ReadTable, FlatRows, Plain;
    b := Head(IPS);
    EmptyTable(IPS, IpRow);
    assert ips[..0] == [];
    for i := 0 to |ips|
      invariant b == TableText(IPS, RowsOf(IpRow, ips[..i]))
    {
      var s := ips[i];
      var line := "| " + MdEscape(s.ip) + " | " + Decimal(s.events) + " |\n";
      DecimalIsPlain(s.events);
      TwoCells(s.ip, Decimal(s.events));
      RowsOfStep(IpRow, ips, i);
      OneMoreRow(IPS, RowsOf(IpRow, ips[..i]), IpRow(s), b, line);
      b := b + line;
    }
    assert ips[..|ips|] == ips;
    PlainIPs();
    TableReadsBack(IPS, IpRow, ips);
  }

  method RenderSessions(sessions: seq<SessionStat>) returns (b: string)
    ensures b == TableText(SESSIONS, RowsOf(SessionRow, sessions))
    ensures ReadTable(b) == Some(ParsedTable(SESSIONS, FlatRows(RowsOf(SessionRow, sessions))))
  {
    hide MdEscape, Decimal, RenderRow, TableText, RowsOf, ReadTable, FlatRows, Plain;
    b := Head(SESSIONS);
    EmptyTable(SESSIONS, SessionRow);
    assert sessions[..0] == [];
    for i := 0 to |sessions|
      invariant b == TableText(SESSIONS, RowsOf(SessionRow, sessions[..i]))
    {
      var s := sessions[i];
      var line := "| " + MdEscape(s.fp) + " | " + MdEscape(s.ip) + " | " + MdEscape(s.user)
                  + " | " + Decimal(s.logins) + " | " + Decimal(s.commands) + " |\n";
      DecimalIsPlain(s.logins);
      DecimalIsPlain(s.commands);
      FiveCells(s.fp, s.ip, s.user, Decimal(s.logins), Decimal(s.commands));
      RowsOfStep(SessionRow, sessions, i);
      OneMoreRow(SESSIONS, RowsOf(SessionRow, sessions[..i]), SessionRow(s), b, line);
      b := b + line;
    }
    assert sessions[..|sessions|] == sessions;
    PlainSessions();
    TableReadsBack(SESSIONS, SessionRow, sessions);
  }

  method RenderQueries(queries: seq<QueryStat>) returns (b: string)
    ensures b == TableText(QUERIES, RowsOf(QueryRow, queries))
    ensures ReadTable(b) == Some(ParsedTable(QUERIES, FlatRows(RowsOf(QueryRow, queries))))
  {
    hide MdEscape, Decimal, RenderRow, TableText, RowsOf, TruncateSQL, ReadTable, FlatRows, Plain;
    b := Head(QUERIES);
    EmptyTable(QUERIES, QueryRow);
    assert queries[..0] == [];
    for i := 0 to |queries|
      invariant b == TableText(QUERIES, RowsOf(QueryRow, queries[..i]))
    {
      var q := queries[i];
      var line := "| " + MdEscape(TruncateSQL(q.query)) + " | " + Decimal(q.count) + " |\n";
      DecimalIsPlain(q.count);
      TwoCells(TruncateSQL(q.query), Decimal(q.count));
      RowsOfStep(QueryRow, queries, i);
      OneMoreRow(QUERIES, RowsOf(QueryRow, queries[..i]), QueryRow(q), b, line);
      b := b + line;
    }
    assert queries[..|queries|] == queries;
    PlainQueries();
    TableReadsBack(QUERIES, QueryRow, queries);
  }

  function CommandRows(format: int -> string): Event -> seq<string> {
    (ev: Event) => CommandRow(format, ev)
  }

  method RenderCommands(format: int -> string, events: seq<Event>) returns (b: string)
    requires forall t :: Plain(format(t))
    ensures b == TableText(COMMANDS, RowsOf(CommandRows(format), events))
    ensures ReadTable(b) == Some(ParsedTable(COMMANDS, FlatRows(RowsOf(CommandRows(format), events))))
  {
    hide MdEscape, RenderRow, TableText, RowsOf, TruncateSQL, Plain, ReadTable, FlatRows;
    b := Head(COMMANDS);
    EmptyTable(COMMANDS, CommandRows(format));
    assert events[..0] == [];
    for i := 0 to |events|
      invariant b == TableText(COMMANDS, RowsOf(CommandRows(format), events[..i]))
    {
      var ev := events[i];
      var ts := format(ev.time);
      var line := "| " + ts + " | " + MdEscape(ev.db) + " | " + MdEscape(TruncateSQL(ev.sql)) + " |\n";
      PlainIsUnchanged(ts);
      ThreeCells(ts, ev.db, TruncateSQL(ev.sql));
      RowsOfStep(CommandRows(format), events, i);
      OneMoreRow(COMMANDS, RowsOf(CommandRows(format), events[..i]), CommandRow(format, ev), b, line);
      b := b + line;
    }
    assert events[..|events|] == events;
    PlainCommands();
    TableReadsBack(COMMANDS, CommandRows(format), events);
  }

  function ShownSession(s: SessionStat): seq<string> {
    [Flat(s.fp), Flat(s.ip), Flat(s.user), Decimal(s.logins), Decimal(s.commands)]
  }

  lemma FlatDecimal(n: int)
    ensures Flat(Decimal(n)) == Decimal(n)
  {
    DecimalIsPlain(n);
    PlainIsUnchanged(Decimal(n));
  }

  /** Every session table reads back as the sessions it shows: numbers exactly, texts up
      to line ends. */
  lemma SessionsTableReadsBack(sessions: seq<SessionStat>)
    ensures ReadTable(TableText(SESSIONS, RowsOf(SessionRow, sessions)))
         == Some(ParsedTable(SESSIONS, RowsOf(ShownSession, sessions)))
  {
    hide Flat, Decimal, ReadTable, TableText, Plain;
    PlainSessions();
    TableReadsBack(SESSIONS, SessionRow, sessions);
    forall k | 0 <= k < |sessions|
      ensures FlatAll(SessionRow(sessions[k])) == ShownSession(sessions[k])
    {
      FlatDecimal(sessions[k].logins);
      FlatDecimal(sessions[k].commands);
    }
    assert FlatRows(RowsOf(SessionRow, sessions)) == RowsOf(ShownSession, sessions);
  }

  function ShownCommands(format: int -> string): Event -> seq<string> {
    (ev: Event) => [format(ev.time), Flat(ev.db), Flat(TruncateSQL(ev.sql))]
  }

  /** A command table reads back as times, databases and shortened statements. */
  lemma CommandsTableReadsBack(format: int -> string, events: seq<Event>)
    requires forall t :: Plain(format(t))
    ensures ReadTable(TableText(COMMANDS, RowsOf(CommandRows(format), events)))
         == Some(ParsedTable(COMMANDS, RowsOf(ShownCommands(format), events)))
  {
    hide Flat, TruncateSQL, Plain, ReadTable, TableText;
    PlainCommands();
    TableReadsBack(COMMANDS, CommandRows(format), events);
    forall k | 0 <= k < |events|
      ensures FlatAll(CommandRow(format, events[k])) == ShownCommands(format)(events[k])
    {
      PlainIsUnchanged(format(events[k].time));
    }
    assert FlatRows(RowsOf(CommandRows(format), events)) == RowsOf(ShownCommands(format), events);
  }

  // ---------- What a reader finds under each heading ----------

  /** The number a digit stands for. */
  function DigitValue(c: char): int {
    c as int - '0' as int
  }

  function NaturalIn(s: string): int {
    if s == "" then 0 else 10 * NaturalIn(s[..|s| - 1]) + DigitValue(s[|s| - 1])
  }

  /** The number a text says in base 10. */
  function NumberIn(s: string): int {
    if s != "" && s[0] == '-' then -NaturalIn(s[1..]) else NaturalIn(s)
  }

  lemma DigitsHaveTheirValue(n: nat)
    requires n < 10
    ensures DigitValue(DIGITS[n]) == n
  {
  }

  lemma {:induction false} DigitsAreRead(n: nat)
    ensures NaturalIn(Digits(n)) == n
  {
    if n < 10 {
      DigitsHaveTheirValue(n);
      assert NaturalIn([DIGITS[n]]) == 10 * NaturalIn("") + DigitValue(DIGITS[n]);
    } else {
      DigitsAreRead(n / 10);
      DigitsHaveTheirValue(n % 10);
      var s := Digits(n);
      assert s[..|s| - 1] == Digits(n / 10);
    }
  }

  /** A printed number says the number. */
  lemma DecimalIsRead(n: int)
    ensures NumberIn(Decimal(n)) == n
  {
    var m := if n < 0 then -n else n;
    DigitsAreRead(m);
    SignIsNoDigit(m);
    assert n < 0 ==> Decimal(n)[1..] == Digits(m);
  }

  function CellUnder(header: seq<string>, row: seq<string>, name: string): string {
    if header == [] || row == [] then ""
    else if header[0] == name then row[0]
    else CellUnder(header[1..], row[1..], name)
  }

  /** The cell of row `k` under the first heading of that name; nothing without one. */
  function Under(t: ParsedTable, name: string, k: nat): string {
    if k < |t.rows| then CellUnder(t.header, t.rows[k], name) else ""
  }

  lemma {:induction false} CellUnderItsName(header: seq<string>, row: seq<string>, j: nat)
    requires |header| == |row| && j < |header| && forall i :: 0 <= i < j ==> header[i] != header[j]
    ensures CellUnder(header, row, header[j]) == row[j]
  {
    if j > 0 {
      assert header[1..][j - 1] == header[j];
      CellUnderItsName(header[1..], row[1..], j - 1);
    }
  }

  /** The cell a table shows in row `k` under heading `j`. */
  lemma ShownUnder<T>(header: seq<string>, row: T -> seq<string>, items: seq<T>, k: nat, j: nat)
    requires header != [] && forall i :: 0 <= i < |header| ==> Plain(header[i])
    requires forall i :: 0 <= i < |items| ==> |row(items[i])| == |header|
    requires k < |items| && j < |header| && forall i :: 0 <= i < j ==> header[i] != header[j]
    ensures var t := ReadTable(TableText(header, RowsOf(row, items)));
            && t.Some? && |t.value.rows| == |items|
            && Under(t.value, header[j], k) == Flat(row(items[k])[j])
  {
    hide ReadTable, TableText, Plain, Flat;
    TableReadsBack(header, row, items);
    CellUnderItsName(header, FlatRows(RowsOf(row, items))[k], j);
  }

  lemma UsersNames()
    ensures |USERS| == 4 && USERS[0] == "user" && USERS[1] == "attempts"
    ensures USERS[2] == "success" && USERS[3] == "failure"
    ensures forall i, j :: 0 <= i < j < |USERS| ==> USERS[i] != USERS[j]
  {
  }

  /** The table of usernames tells, under each heading, the name tried and how often in all,
      with success and with failure. */
  lemma UsersTableTells(users: seq<UserStat>, k: nat)
    requires k < |users|
    ensures var t, u := ReadTable(TableText(USERS, RowsOf(UserRow, users))), users[k];
            && t.Some? && |t.value.rows| == |users|
            && Under(t.value, "user", k) == Flat(u.user)
            && NumberIn(Under(t.value, "attempts", k)) == u.attempts
            && NumberIn(Under(t.value, "success", k)) == u.success
            && NumberIn(Under(t.value, "failure", k)) == u.failure
  {
    hide ReadTable, TableText, Plain, Flat, Under, NumberIn, Decimal, TruncateSQL, RowsOf;
    PlainUsers();
    UsersNames();
    ShownUnder(USERS, UserRow, users, k, 0);
    ShownUnder(USERS, UserRow, users, k, 1);
    FlatDecimal(users[k].attempts);
    DecimalIsRead(users[k].attempts);
    ShownUnder(USERS, UserRow, users, k, 2);
    FlatDecimal(users[k].success);
    DecimalIsRead(users[k].success);
    ShownUnder(USERS, UserRow, users, k, 3);
    FlatDecimal(users[k].failure);
    DecimalIsRead(users[k].failure);
  }

  lemma IPsNames()
    ensures |IPS| == 2 && IPS[0] == "ip" && IPS[1] == "events"
    ensures forall i, j :: 0 <= i < j < |IPS| ==> IPS[i] != IPS[j]
  {
  }

  /** The table of source addresses tells each address and its events. */
  lemma IPsTableTells(ips: seq<IpStat>, k: nat)
    requires k < |ips|
    ensures var t, u := ReadTable(TableText(IPS, RowsOf(IpRow, ips))), ips[k];
            && t.Some? && |t.value.rows| == |ips|
            && Under(t.value, "ip", k) == Flat(u.ip)
            && NumberIn(Under(t.value, "events", k)) == u.events
  {
    hide ReadTable, TableText, Plain, Flat, Under, NumberIn, Decimal, TruncateSQL, RowsOf;
    PlainIPs();
    IPsNames();
    ShownUnder(IPS, IpRow, ips, k, 0);
    ShownUnder(IPS, IpRow, ips, k, 1);
    FlatDecimal(ips[k].events);
    DecimalIsRead(ips[k].events);
  }

  lemma SessionsNames()
    ensures |SESSIONS| == 5 && SESSIONS[0] == "fp" && SESSIONS[1] == "ip" && SESSIONS[2] == "user"
    ensures SESSIONS[3] == "logins" && SESSIONS[4] == "commands"
    ensures forall i, j :: 0 <= i < j < |SESSIONS| ==> SESSIONS[i] != SESSIONS[j]
  {
  }

  /** The table of sessions tells fingerprint, address, users, logins and commands of each. */
  lemma SessionsTableTells(sessions: seq<SessionStat>, k: nat)
    requires k < |sessions|
    ensures var t, u := ReadTable(TableText(SESSIONS, RowsOf(SessionRow, sessions))), sessions[k];
            && t.Some? && |t.value.rows| == |sessions|
            && Under(t.value, "fp", k) == Flat(u.fp)
            && Under(t.value, "ip", k) == Flat(u.ip)
            && Under(t.value, "user", k) == Flat(u.user)
            && NumberIn(Under(t.value, "logins", k)) == u.logins
            && NumberIn(Under(t.value, "commands", k)) == u.commands
  {
    hide ReadTable, TableText, Plain, Flat, Under, NumberIn, Decimal, TruncateSQL, RowsOf;
    PlainSessions();
    SessionsNames();
    ShownUnder(SESSIONS, SessionRow, sessions, k, 0);
    ShownUnder(SESSIONS, SessionRow, sessions, k, 1);
    ShownUnder(SESSIONS, SessionRow, sessions, k, 2);
    ShownUnder(SESSIONS, SessionRow, sessions, k, 3);
    FlatDecimal(sessions[k].logins);
    DecimalIsRead(sessions[k].logins);
    ShownUnder(SESSIONS, SessionRow, sessions, k, 4);
    FlatDecimal(sessions[k].commands);
    DecimalIsRead(sessions[k].commands);
  }

  lemma QueriesNames()
    ensures |QUERIES| == 2 && QUERIES[0] == "query" && QUERIES[1] == "count"
    ensures forall i, j :: 0 <= i < j < |QUERIES| ==> QUERIES[i] != QUERIES[j]
  {
  }

  /** The table of queries tells each query, shortened, and its count. */
  lemma QueriesTableTells(queries: seq<QueryStat>, k: nat)
    requires k < |queries|
    ensures var t, u := ReadTable(TableText(QUERIES, RowsOf(QueryRow, queries))), queries[k];
            && t.Some? && |t.value.rows| == |queries|
            && Under(t.value, "query", k) == Flat(TruncateSQL(u.query))
            && NumberIn(Under(t.value, "count", k)) == u.count
  {
    hide ReadTable, TableText, Plain, Flat, Under, NumberIn, Decimal, TruncateSQL, RowsOf;
    PlainQueries();
    QueriesNames();
    ShownUnder(QUERIES, QueryRow, queries, k, 0);
    ShownUnder(QUERIES, QueryRow, queries, k, 1);
    FlatDecimal(queries[k].count);
    DecimalIsRead(queries[k].count);
  }

  lemma CommandsNames()
    ensures |COMMANDS| == 3 && COMMANDS[0] == "time" && COMMANDS[1] == "db" && COMMANDS[2] == "sql"
    ensures forall i, j :: 0 <= i < j < |COMMANDS| ==> COMMANDS[i] != COMMANDS[j]
  {
  }

  /** The table of a group's commands tells time, database and shortened statement of each. */
  lemma CommandsTableTells(format: int -> string, events: seq<Event>, k: nat)
    requires k < |events|
    requires forall t :: Plain(format(t))
    ensures var t, u := ReadTable(TableText(COMMANDS, RowsOf(CommandRows(format), events))), events[k];
            && t.Some? && |t.value.rows| == |events|
            && Under(t.value, "time", k) == format(u.time)
            && Under(t.value, "db", k) == Flat(u.db)
            && Under(t.value, "sql", k) == Flat(TruncateSQL(u.sql))
  {
    hide ReadTable, TableText, Plain, Flat, Under, NumberIn, Decimal, TruncateSQL, RowsOf;
    PlainCommands();
    CommandsNames();
    ShownUnder(COMMANDS, CommandRows(format), events, k, 0);
    PlainIsUnchanged(format(events[k].time));
    ShownUnder(COMMANDS, CommandRows(format), events, k, 1);
    ShownUnder(COMMANDS, CommandRows(format), events, k, 2);
  }
}
