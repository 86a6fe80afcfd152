/**
 * The query dispatcher: each statement of a parsed request goes either to
 * the row path (a backend query whose rows are streamed back) or to the
 * command path (a backend exec answered with a completion tag).
 */
module QueryDispatch {
  import opened Wrappers
  import opened Wire
  import opened Decimal

  /** The statement kinds the dispatcher tells apart; every other node is OtherStmt. */
  datatype StmtKind =
    | VariableShowStmt
    | SelectStmt
    | InsertStmt
    | CreateTableAsStmt
    | DeleteStmt
    | FetchStmt
    | CopyStmt
    | UpdateStmt
    | OtherStmt(name: string)

  /** One parsed statement: its kind and an opaque handle on the parser's node. */
  datatype Statement = Statement(kind: StmtKind, node: nat)

  datatype Path = RowPath | CommandPath

  /** SHOW and SELECT produce rows; every other kind is a command. */
  function Classify(kind: StmtKind): (path: Path)
    ensures path == RowPath <==> kind == VariableShowStmt || kind == SelectStmt
  {
    match kind
    case VariableShowStmt => RowPath
    case SelectStmt => RowPath
    case _ => CommandPath
  }

  /** The driver values the model formats. */
  datatype Value = Null | Bool(b: bool) | Int(i: int) | Text(s: string)

  /** Go's "%v" of a driver value; an integer's text reads back as that integer. */
  function FormatValue(v: Value): (s: string)
    ensures v.Int? ==> IsIntString(s) && ParseInt(s) == v.i
  {
    match v
    case Null => "<nil>"
    case Bool(b) => if b then "true" else "false"
    case Int(i) => ParseIntToString(i); IntToString(i)
    case Text(s) => s
  }

  function FormatRow(row: seq<Value>): (strings: seq<string>)
    ensures |strings| == |row|
    ensures forall i :: 0 <= i < |row| ==> strings[i] == FormatValue(row[i])
  {
    seq(|row|, i requires 0 <= i < |row| => FormatValue(row[i]))
  }

  /**
   * A backend query's answer: the column names, the rows its iterator
   * yields in order, and how the iteration ends (None is io.EOF).
   */
  datatype Rows = Rows(columns: seq<string>, rows: seq<seq<Value>>, end: Option<Error>)

  /** Every row fills one value per column, as database/sql/driver asks of Next. */
  type RowSet = r: Rows | forall i :: 0 <= i < |r.rows| ==> |r.rows[i]| == |r.columns|
    witness Rows([], [], None)

  /**
   * A backend exec's answer: RowsAffected, and, when the result reports its
   * own tag (the ResultTag capability), the outcome of asking it for one.
   */
  datatype ExecResult = ExecResult(rowsAffected: Result<int, Error>, selfTag: Option<Result<string, Error>>)

  // ---------------------------------------------------------------- tags

  /** The text after the last space of `t`, or all of `t` when it has none. */
  function LastField(t: string): (f: string)
    ensures |f| <= |t| && f == t[|t| - |f|..] && ' ' !in f
    ensures |f| < |t| ==> t[|t| - |f| - 1] == ' '
    decreases |t|
  {
    if t == [] || t[|t| - 1] == ' ' then [] else LastField(t[..|t| - 1]) + [t[|t| - 1]]
  }

  /** Reads a completion tag as a client does: command words, one space, a count. */
  function ParseTag(t: string): Option<(string, int)> {
    var f := LastField(t);
    if |f| < |t| && IsIntString(f) then Some((t[..|t| - |f| - 1], ParseInt(f))) else None
  }

  lemma {:induction false} LastFieldAfterSpace(p: string, f: string)
    requires ' ' !in f
    ensures LastField(p + [' '] + f) == f
    decreases |f|
  {
    var t := p + [' '] + f;
    if f == [] {
      assert t[|t| - 1] == ' ';
    } else {
      var g := f[..|f| - 1];
      assert t[|t| - 1] == f[|f| - 1] != ' ';
      assert t[..|t| - 1] == p + [' '] + g;
      assert ' ' !in g by {
        assert forall c :: c in g ==> c in f;
      }
      LastFieldAfterSpace(p, g);
      assert f == g + [f[|f| - 1]];
    }
  }

  /** A tag written as command words, a space and "%d" of n reads back as exactly those words and n. */
  lemma ParseFormattedTag(words: string, n: int)
    ensures ParseTag(words + " " + IntToString(n)) == Some((words, n))
  {
    var f := IntToString(n);
    var t := words + " " + f;
    assert t == words + [' '] + f;
    LastFieldAfterSpace(words, f);
    assert LastField(t) == f;
    assert t[..|t| - |f| - 1] == words;
    ParseIntToString(n);
    assert ParseTag(t) == Some((words, ParseInt(f)));
  }

  /** The command words of the tag for each statement kind; UPDATE is the fallback. */
  function TagWords(kind: StmtKind): string {
    match kind
    case InsertStmt => "INSERT 0"         // object ids are not tracked
    case CreateTableAsStmt => "SELECT"
    case DeleteStmt => "DELETE"
    case FetchStmt => "FETCH"
    case CopyStmt => "COPY"
    case _ => "UPDATE"                    // UpdateStmt, and the fallback for every other kind
  }

  /** tagger.Tag: the completion tag of a command from its kind and RowsAffected. */
  function Tag(kind: StmtKind, affected: Result<int, Error>): (tag: Result<string, Error>)
    ensures tag.Success? <==> affected.Success?
    ensures affected.Failure? ==> tag == Failure(affected.error)
  {
    match affected
    case Failure(e) => Failure(e)
    case Success(n) => Success(TagWords(kind) + " " + IntToString(n))
  }

  /** A client reading a tag from the table gets back the kind's command words and the count. */
  lemma TagReadsBack(kind: StmtKind, n: int)
    ensures Tag(kind, Success(n)).Success?
    ensures ParseTag(Tag(kind, Success(n)).value) == Some((TagWords(kind), n))
  {
    ParseFormattedTag(TagWords(kind), n);
  }

  /** The completion tags of the statement kinds the table names, for a count n. */
  lemma TagTable(n: int)
    ensures Tag(InsertStmt, Success(n)) == Success("INSERT 0 " + IntToString(n))
    ensures Tag(CreateTableAsStmt, Success(n)) == Success("SELECT " + IntToString(n))
    ensures Tag(DeleteStmt, Success(n)) == Success("DELETE " + IntToString(n))
    ensures Tag(FetchStmt, Success(n)) == Success("FETCH " + IntToString(n))
    ensures Tag(CopyStmt, Success(n)) == Success("COPY " + IntToString(n))
  {
    assert "COPY" + " " == "COPY ";
    assert "DELETE" + " " == "DELETE ";
    assert "FETCH" + " " == "FETCH ";
    assert "INSERT 0" + " " == "INSERT 0 ";
    assert "SELECT" + " " == "SELECT ";
  }

  /** UpdateStmt and every kind the table does not name, SHOW and SELECT included, get UPDATE. */
  lemma TagTableFallback(kind: StmtKind, n: int)
    requires !(kind.InsertStmt? || kind.CreateTableAsStmt? || kind.DeleteStmt? || kind.FetchStmt? || kind.CopyStmt?)
    ensures Tag(kind, Success(n)) == Success("UPDATE " + IntToString(n))
  {
    assert "UPDATE" + " " == "UPDATE ";
  }

  /** The row path's tag, "SELECT n". */
  function SelectTag(count: nat): string {
    "SELECT" + " " + IntToString(count)
  }

  /** A client reads "SELECT n" back as the SELECT command and n. */
  lemma SelectTagReadsBack(count: nat)
    ensures ParseTag(SelectTag(count)) == Some(("SELECT", count as int))
  {
    ParseFormattedTag("SELECT", count);
  }

  // ------------------------------------------------ what each path writes

  function DataRows(rows: seq<seq<Value>>): (ms: seq<Message>)
    ensures |ms| == |rows|
    ensures forall i :: 0 <= i < |rows| ==> ms[i] == DataRow(FormatRow(rows[i]))
  {
    seq(|rows|, i requires 0 <= i < |rows| => DataRow(FormatRow(rows[i])))
  }

  /** The messages the row path writes for the backend's answer when every write succeeds. */
  function RowPathMessages(answer: Result<RowSet, Error>): (ms: seq<Message>)
    ensures |ms| >= 1
  {
    match answer
    case Failure(e) => [ErrorResponse(e, false)]
    case Success(rs) => [RowDescription(rs.columns)] + RowStream(rs)
  }

  /** What follows the row description: the data rows, then "SELECT n" or the iteration error. */
  function RowStream(rs: RowSet): (ms: seq<Message>)
    ensures |ms| == |rs.rows| + 1
  {
    DataRows(rs.rows)
    + [if rs.end.None? then CommandComplete(SelectTag(|rs.rows|)) else ErrorResponse(rs.end.value, false)]
  }

  function CountDataRows(ms: seq<Message>): nat
    decreases |ms|
  {
    if ms == [] then 0 else (if ms[0].DataRow? then 1 else 0) + CountDataRows(ms[1..])
  }

  lemma {:induction false} CountDataRowsAppend(a: seq<Message>, b: seq<Message>)
    ensures CountDataRows(a + b) == CountDataRows(a) + CountDataRows(b)
    decreases |a|
  {
    if a == [] {
      assert a + b == b;
    } else {
      assert (a + b)[0] == a[0];
      assert (a + b)[1..] == a[1..] + b;
      CountDataRowsAppend(a[1..], b);
    }
  }

  lemma {:induction false} CountDataRowsAll(ms: seq<Message>)
    requires forall i :: 0 <= i < |ms| ==> ms[i].DataRow?
    ensures CountDataRows(ms) == |ms|
    decreases |ms|
  {
    if ms != [] {
      CountDataRowsAll(ms[1..]);
    }
  }

  /** A failed backend query: one error message, and no row description, data row or tag. */
  lemma RowPathOnQueryFailure(e: Error)
    ensures RowPathMessages(Failure(e)) == [ErrorResponse(e, false)]
  {
  }

  /**
   * A successful backend query: one row description with the backend's
   * columns in order, then one data row per backend row, each holding
   * exactly one string per column, then one closing message.
   */
  lemma {:induction false} RowPathLayout(rs: RowSet)
    ensures var ms := RowPathMessages(Success(rs));
      && |ms| == |rs.rows| + 2
      && ms[0] == RowDescription(rs.columns)
      && forall i :: 1 <= i <= |rs.rows| ==>
           ms[i] == DataRow(FormatRow(rs.rows[i - 1])) && |ms[i].values| == |rs.columns|
  {
    var ms := RowPathMessages(Success(rs));
    forall i | 1 <= i <= |rs.rows|
      ensures ms[i] == DataRow(FormatRow(rs.rows[i - 1])) && |ms[i].values| == |rs.columns|
    {
      assert ms[i] == DataRows(rs.rows)[i - 1];
    }
  }

  /** The row path writes exactly one data row per backend row, however the iteration ends. */
  lemma {:induction false} RowPathCountsDataRows(rs: RowSet)
    ensures CountDataRows(RowPathMessages(Success(rs))) == |rs.rows|
  {
    var data := DataRows(rs.rows);
    var head, last := [RowDescription(rs.columns)], RowStream(rs)[|rs.rows|];
    assert RowPathMessages(Success(rs)) == head + data + [last];
    CountDataRowsAll(data);
    CountDataRowsAppend(head, data);
    CountDataRowsAppend(head + data, [last]);
    assert CountDataRows([last]) == 0;
    assert CountDataRows(head) == 0;
  }

  /** When the rows run out cleanly the closing message is "SELECT n", n the number of data rows written. */
  lemma {:induction false} RowPathTagCountsDataRows(rs: RowSet)
    requires rs.end.None?
    ensures var ms := RowPathMessages(Success(rs));
      && ms[|ms| - 1].CommandComplete?
      && ParseTag(ms[|ms| - 1].tag) == Some(("SELECT", CountDataRows(ms) as int))
  {
    var ms := RowPathMessages(Success(rs));
    assert ms[|ms| - 1] == CommandComplete(SelectTag(|rs.rows|));
    RowPathCountsDataRows(rs);
    SelectTagReadsBack(|rs.rows|);
  }

  /** When row iteration fails the data rows stay, an error message follows, and no tag is written. */
  lemma {:induction false} RowPathOnIterationFailure(rs: RowSet)
    requires rs.end.Some?
    ensures var ms := RowPathMessages(Success(rs));
      && ms[|ms| - 1] == ErrorResponse(rs.end.value, false)
      && forall m :: m in ms ==> !m.CommandComplete?
  {
    var ms := RowPathMessages(Success(rs));
    forall m | m in ms
      ensures !m.CommandComplete?
    {
      var i :| 0 <= i < |ms| && ms[i] == m;
      if 1 <= i <= |rs.rows| {
        assert ms[i] == DataRows(rs.rows)[i - 1];
      }
    }
  }

  /** A worked example: two columns, two rows, then "SELECT 2". */
  lemma RowPathExample()
    ensures RowPathMessages(Success(Rows(["id", "name"], [[Int(1), Text("a")], [Int(2), Text("b")]], None)))
         == [RowDescription(["id", "name"]), DataRow(["1", "a"]), DataRow(["2", "b"]), CommandComplete("SELECT 2")]
  {
    var rows := [[Int(1), Text("a")], [Int(2), Text("b")]];
    assert IntToString(1) == "1" && IntToString(2) == "2";
    assert FormatRow(rows[0]) == ["1", "a"];
    assert FormatRow(rows[1]) == ["2", "b"];
    assert DataRows(rows) == [DataRow(["1", "a"]), DataRow(["2", "b"])];
    assert SelectTag(2) == "SELECT 2";
  }

  /** The tag a command result is answered with: its own, verbatim, or else the table's. */
  function CompletionTag(kind: StmtKind, res: ExecResult): (tag: Result<string, Error>)
    ensures res.selfTag.Some? ==> tag == res.selfTag.value
    ensures res.selfTag.None? ==> tag == Tag(kind, res.rowsAffected)
  {
    if res.selfTag.Some? then res.selfTag.value else Tag(kind, res.rowsAffected)
  }

  /**
   * Without a tag of its own, a command is answered with the table's tag,
   * which a client reads back as the kind's command words and RowsAffected,
   * or with RowsAffected's error.
   */
  lemma CompletionTagFromTable(kind: StmtKind, res: ExecResult)
    requires res.selfTag.None?
    ensures res.rowsAffected.Success? ==>
      && CompletionTag(kind, res).Success?
      && ParseTag(CompletionTag(kind, res).value) == Some((TagWords(kind), res.rowsAffected.value))
    ensures res.rowsAffected.Failure? ==> CompletionTag(kind, res) == Failure(res.rowsAffected.error)
  {
    if res.rowsAffected.Success? {
      TagReadsBack(kind, res.rowsAffected.value);
    }
  }

  /**
   * The one message the command path writes: a completion tag when the
   * backend call and the tag both succeed, otherwise an error message.
   */
  function CommandPathMessage(kind: StmtKind, answer: Result<ExecResult, Error>): (m: Message)
    ensures m.CommandComplete? <==> answer.Success? && CompletionTag(kind, answer.value).Success?
    ensures m.CommandComplete? ==> m.tag == CompletionTag(kind, answer.value).value
    ensures answer.Failure? ==> m == ErrorResponse(answer.error, false)
    ensures answer.Success? && CompletionTag(kind, answer.value).Failure? ==>
      m == ErrorResponse(CompletionTag(kind, answer.value).error, false)
  {
    match answer
    case Failure(e) => ErrorResponse(e, false)
    case Success(res) =>
      match CompletionTag(kind, res)
      case Failure(e) => ErrorResponse(e, false)
      case Success(tag) => CommandComplete(tag)
  }

  // ------------------------------------------------------------- session

  /**
   * The session a request runs in. Every message handed to Write is
   * recorded in `sent`; the outcome of the k-th write and the answers of
   * the c-th backend call are the connection's and the backend's, given as
   * `writeOutcome(k)`, `queryOutcome(c, stmt)` and `execOutcome(c, stmt)`.
   * Its writer records messages as the authenticators' channel does, but
   * stands for the session's own Write.
   */
  class Session {
    var sent: seq<Message>
    var backendCalls: nat
    const writeOutcome: nat -> Option<Error>
    const queryOutcome: (nat, Statement) -> Result<RowSet, Error>
    const execOutcome: (nat, Statement) -> Result<ExecResult, Error>
    /** What each statement's path hands to the writer: `writes(call, stmt, k)` for backend call `call` and first write `k`. */
    ghost const writes: Writes

    ghost predicate WritesAgree(call: nat, stmt: Statement, k: nat) {
      writes(call, stmt, k) == Attempted(PathMessages(queryOutcome, execOutcome, stmt, call), k, writeOutcome)
    }

    ghost predicate Valid() {
      forall call, stmt, k :: WritesAgree(call, stmt, k)
    }

    constructor (writeOutcome: nat -> Option<Error>,
                 queryOutcome: (nat, Statement) -> Result<RowSet, Error>,
                 execOutcome: (nat, Statement) -> Result<ExecResult, Error>)
      ensures sent == [] && backendCalls == 0
      ensures this.writeOutcome == writeOutcome
      ensures this.queryOutcome == queryOutcome && this.execOutcome == execOutcome
      ensures Valid()
    {
      this.sent := [];
      this.backendCalls := 0;
      this.writeOutcome := writeOutcome;
      this.queryOutcome := queryOutcome;
      this.execOutcome := execOutcome;
      this.writes := (call: nat, stmt: Statement, k: nat) =>
        Attempted(PathMessages(queryOutcome, execOutcome, stmt, call), k, writeOutcome);
    }

    method Write(m: Message) returns (err: Option<Error>)
      modifies this`sent
      ensures sent == old(sent) + [m]
      ensures err == writeOutcome(|old(sent)|)
    {
      err := writeOutcome(|sent|);
      sent := sent + [m];
    }

    /** The backend's query call. */
    method Query(stmt: Statement) returns (answer: Result<RowSet, Error>)
      modifies this`backendCalls
      ensures backendCalls == old(backendCalls) + 1
      ensures answer == queryOutcome(old(backendCalls), stmt)
    {
      answer := queryOutcome(backendCalls, stmt);
      backendCalls := backendCalls + 1;
    }

    /** The backend's exec call. */
    method Exec(stmt: Statement) returns (answer: Result<ExecResult, Error>)
      modifies this`backendCalls
      ensures backendCalls == old(backendCalls) + 1
      ensures answer == execOutcome(old(backendCalls), stmt)
    {
      answer := execOutcome(backendCalls, stmt);
      backendCalls := backendCalls + 1;
    }
  }

  // ------------------------------------------------------- the dispatcher

  /** rows.Next(dest): the driver copies the next row's values into the caller's buffer. */
  method NextRow(values: seq<Value>, dest: array<Value>)
    requires |values| == dest.Length
    modifies dest
    ensures dest[..] == values
  {
    for i := 0 to dest.Length
      invariant dest[..i] == values[..i]
    {
      dest[i] := values[i];
    }
  }

  /** The "%v" loop: each value of the row buffer is formatted into the same slot of the strings buffer. */
  method FormatInto(row: array<Value>, strings: array<string>)
    requires row.Length == strings.Length
    modifies strings
    ensures strings[..] == FormatRow(row[..])
  {
    for i := 0 to row.Length
      invariant forall j :: 0 <= j < i ==> strings[j] == FormatValue(row[j])
    {
      strings[i] := FormatValue(row[i]);
    }
  }

  /**
   * The row path. What it writes is RowPathMessages of the backend's answer,
   * cut short right after the first write that fails; it returns the
   * outcome of the last write it made.
   */
  method Query(s: Session, stmt: Statement) returns (err: Option<Error>)
    modifies s
    ensures s.backendCalls == old(s.backendCalls) + 1
    ensures s.sent == old(s.sent)
      + Attempted(RowPathMessages(s.queryOutcome(old(s.backendCalls), stmt)), |old(s.sent)|, s.writeOutcome)
    ensures |s.sent| > |old(s.sent)| && err == s.writeOutcome(|s.sent| - 1)
  {
    ghost var k := |s.sent|;
    var answer := s.Query(stmt);
    ghost var ideal := RowPathMessages(answer);
    if answer.Failure? {
      err := s.Write(ErrorResponse(answer.error, false));
      assert s.sent == old(s.sent) + Attempted(ideal, k, s.writeOutcome) by {
        AttemptedUpTo(ideal, k, s.writeOutcome, 0);
      }
      return;
    }
    var rows := answer.value;
    var cols := BuildColumns(rows.columns);
    assert cols == rows.columns;
    err := s.Write(RowDescription(cols));
    if err.Some? {
      assert s.sent == old(s.sent) + Attempted(ideal, k, s.writeOutcome) by {
        AttemptedUpTo(ideal, k, s.writeOutcome, 0);
      }
      return;
    }
    err := WriteRows(s, rows, |cols|);
    assert s.sent == old(s.sent) + Attempted(ideal, k, s.writeOutcome) by {
      assert ideal == [RowDescription(cols)] + RowStream(rows);
      AttemptedAfterFirst(RowDescription(cols), RowStream(rows), k, s.writeOutcome);
      Associative(old(s.sent), [RowDescription(cols)], Attempted(RowStream(rows), k + 1, s.writeOutcome));
    }
  }

  /** The row description's columns, built one by one from the backend's column names, in order. */
  method BuildColumns(names: seq<string>) returns (cols: seq<string>)
    ensures |cols| == |names| && forall i :: 0 <= i < |names| ==> cols[i] == names[i]
  {
    cols := [];
    for i := 0 to |names|
      invariant cols == names[..i]
    {
      cols := cols + [names[i]];
    }
  }

  /**
   * The rows loop of the row path: the reused `row` and `strings` buffers
   * are refilled for each row, and `count` counts the data rows written.
   * What it writes is RowStream(rows), cut short after the first failing write.
   */
  method WriteRows(s: Session, rows: RowSet, numCols: nat) returns (err: Option<Error>)
    requires numCols == |rows.columns|
    modifies s
    ensures s.backendCalls == old(s.backendCalls)
    ensures s.sent == old(s.sent) + Attempted(RowStream(rows), |old(s.sent)|, s.writeOutcome)
    ensures |s.sent| > |old(s.sent)| && err == s.writeOutcome(|s.sent| - 1)
  {
    var count := 0;
    var row := new Value[numCols];
    var strings := new string[numCols];
    while true
      invariant 0 <= count <= |rows.rows|
      invariant s.backendCalls == old(s.backendCalls)
      invariant s.sent == old(s.sent) + RowStream(rows)[..count]
      invariant WritesSucceed(s.writeOutcome, |old(s.sent)|, |s.sent|)
      invariant row.Length == strings.Length == numCols
      decreases |rows.rows| - count
    {
      // the iterator stands at row `count`
      if count == |rows.rows| {
        if rows.end.None? {
          break;  // io.EOF
        }
        err := WriteNextOf(s, ErrorResponse(rows.end.value, false), RowStream(rows), old(s.sent), count);
        return;
      }
      err := WriteDataRow(s, rows, row, strings, old(s.sent), count);
      if err.Some? {
        return;
      }
      count := count + 1;
    }
    err := WriteNextOf(s, CommandComplete(SelectTag(count)), RowStream(rows), old(s.sent), count);
  }

  /**
   * One turn of the rows loop that finds a row: the driver fills the row
   * buffer, each value is formatted into the strings buffer, and the data
   * row is written as the next message of the row stream.
   */
  method WriteDataRow(s: Session, rows: RowSet, row: array<Value>, strings: array<string>,
                      ghost start: seq<Message>, count: nat)
    returns (err: Option<Error>)
    requires count < |rows.rows| && row.Length == strings.Length == |rows.columns|
    requires s.sent == start + RowStream(rows)[..count] && WritesSucceed(s.writeOutcome, |start|, |s.sent|)
    modifies s`sent, row, strings
    ensures s.sent == start + RowStream(rows)[..count + 1] && err == s.writeOutcome(|s.sent| - 1)
    ensures s.sent[|s.sent| - 1] == DataRow(FormatRow(rows.rows[count]))
    ensures err.None? ==> WritesSucceed(s.writeOutcome, |start|, |s.sent|)
    ensures err.Some? ==> s.sent == start + Attempted(RowStream(rows), |start|, s.writeOutcome)
  {
    NextRow(rows.rows[count], row);
    FormatInto(row, strings);
    assert RowStream(rows)[count] == DataRows(rows.rows)[count] == DataRow(strings[..]);
    err := WriteNextOf(s, DataRow(strings[..]), RowStream(rows), start, count);
  }

  /**
   * Writes `m`, the next message of `stream` after the `count` already
   * written since `start`: one more of the stream has then been sent, and
   * when that write fails or `m` is the stream's last message, what was
   * sent since `start` is the stream as attempted.
   */
  method WriteNextOf(s: Session, m: Message, ghost stream: seq<Message>, ghost start: seq<Message>, ghost count: nat)
    returns (err: Option<Error>)
    requires count < |stream| && m == stream[count]
    requires s.sent == start + stream[..count] && WritesSucceed(s.writeOutcome, |start|, |s.sent|)
    modifies s`sent
    ensures s.sent == start + stream[..count + 1] && err == s.writeOutcome(|s.sent| - 1)
    ensures err.None? ==> WritesSucceed(s.writeOutcome, |start|, |s.sent|)
    ensures err.Some? || count == |stream| - 1 ==> s.sent == start + Attempted(stream, |start|, s.writeOutcome)
  {
    err := s.Write(m);
    WroteNext(start, stream, count, s.sent);
    if err.Some? || count == |stream| - 1 {
      AttemptedUpTo(stream, |start|, s.writeOutcome, count);
    }
  }

  /** Writing the next message of `stream` extends what was sent by one more of its prefix. */
  lemma WroteNext(before: seq<Message>, stream: seq<Message>, count: nat, sent: seq<Message>)
    requires count < |stream|
    requires sent == before + stream[..count] + [stream[count]]
    ensures sent == before + stream[..count + 1]
  {
    assert stream[..count + 1] == stream[..count] + [stream[count]];
  }

  /**
   * The command path: one backend exec and exactly one message,
   * CommandPathMessage of its answer; returns that write's outcome.
   */
  method Exec(s: Session, stmt: Statement) returns (err: Option<Error>)
    modifies s
    ensures s.backendCalls == old(s.backendCalls) + 1
    ensures s.sent == old(s.sent) + [CommandPathMessage(stmt.kind, s.execOutcome(old(s.backendCalls), stmt))]
    ensures err == s.writeOutcome(|old(s.sent)|)
  {
    var answer := s.Exec(stmt);
    if answer.Failure? {
      err := s.Write(ErrorResponse(answer.error, false));
      return;
    }
    var res := answer.value;
    var tag: Result<string, Error>;
    if res.selfTag.Some? {
      tag := res.selfTag.value;
    } else {
      tag := Tag(stmt.kind, res.rowsAffected);
    }
    if tag.Failure? {
      err := s.Write(ErrorResponse(tag.error, false));
      return;
    }
    err := s.Write(CommandComplete(tag.value));
  }

  /** The messages one statement's path would write when every write succeeds. */
  function PathMessages(queryOutcome: (nat, Statement) -> Result<RowSet, Error>,
                        execOutcome: (nat, Statement) -> Result<ExecResult, Error>,
                        stmt: Statement, call: nat): (ms: seq<Message>)
    ensures |ms| >= 1
  {
    if Classify(stmt.kind) == RowPath then RowPathMessages(queryOutcome(call, stmt))
    else [CommandPathMessage(stmt.kind, execOutcome(call, stmt))]
  }

  /** A non-empty run of messages. */
  type SomeMessages = ms: seq<Message> | |ms| >= 1 witness [CommandComplete("")]

  /**
   * The messages a statement's path hands to the writer, from its backend
   * call number, the statement and its first write number: never none.
   */
  type Writes = (nat, Statement, nat) -> SomeMessages

  /** What a batch of statements does: the messages it writes, how many statements ran, what Run returns. */
  datatype BatchOutcome = BatchOutcome(sent: seq<Message>, executed: nat, err: Option<Error>)

  /**
   * Statements i, i+1, ... run in order, statement i with backend call
   * number `call` and first write number `k`. A statement whose last write
   * fails ends the batch with one more message, that error, and the batch
   * returns the outcome of writing it.
   */
  function Batch(writes: Writes, outcome: nat -> Option<Error>, stmts: seq<Statement>, i: nat, k: nat, call: nat)
    : BatchOutcome
    requires i <= |stmts|
    decreases |stmts| - i
  {
    if i == |stmts| then BatchOutcome([], 0, None)
    else
      var t := writes(call, stmts[i], k);
      var e := outcome(k + |t| - 1);
      if e.Some? then BatchOutcome(t + [ErrorResponse(e.value, false)], 1, outcome(k + |t|))
      else
        var rest := Batch(writes, outcome, stmts, i + 1, k + |t|, call + 1);
        BatchOutcome(t + rest.sent, 1 + rest.executed, rest.err)
  }

  /**
   * A batch runs a prefix of its statements: all of them, or else it stops
   * after a failing one with an error message as its last message.
   * An error comes back only when writing that last error message failed.
   */
  lemma {:induction false} BatchStopsOnlyAfterFailure(writes: Writes, outcome: nat -> Option<Error>,
                                                    stmts: seq<Statement>, i: nat, k: nat, call: nat)
    requires i <= |stmts|
    ensures var b := Batch(writes, outcome, stmts, i, k, call);
      && b.executed <= |stmts| - i
      && (i < |stmts| ==> b.executed >= 1 && |b.sent| >= b.executed)
      && (b.executed < |stmts| - i || b.err.Some? ==>
            |b.sent| >= 2 && b.sent[|b.sent| - 1].ErrorResponse?
            && outcome(k + |b.sent| - 2).Some? && b.err == outcome(k + |b.sent| - 1))
    decreases |stmts| - i
  {
    if i < |stmts| {
      var t := writes(call, stmts[i], k);
      if outcome(k + |t| - 1).None? {
        BatchStopsOnlyAfterFailure(writes, outcome, stmts, i + 1, k + |t|, call + 1);
      }
    }
  }

  /**
   * The messages `n` statements from statement i write when each one
   * starts right after the one before: statement i with write number `k`
   * and backend call `call`.
   */
  function Chain(writes: Writes, stmts: seq<Statement>, i: nat, k: nat, call: nat, n: nat): (ms: seq<Message>)
    requires i + n <= |stmts|
    ensures |ms| >= n
    decreases n
  {
    if n == 0 then []
    else
      var t := writes(call, stmts[i], k);
      t + Chain(writes, stmts, i + 1, k + |t|, call + 1, n - 1)
  }

  /** Chain of j >= 1 statements: the first statement's writes, then the chain of the next j - 1. */
  lemma ChainUnfold(writes: Writes, stmts: seq<Statement>, i: nat, k: nat, call: nat, j: nat)
    requires 1 <= j && i + j <= |stmts|
    ensures var t := writes(call, stmts[i], k);
      Chain(writes, stmts, i, k, call, j) == t + Chain(writes, stmts, i + 1, k + |t|, call + 1, j - 1)
  {
  }

  /**
   * A batch goes on past a statement only when that statement's last write
   * succeeded: of the statements that ran, every one before the last ended
   * with a successful write, the k-th write after the chain of those before it.
   */
  lemma {:induction false} BatchEarlierStatementsSucceed(writes: Writes, outcome: nat -> Option<Error>,
                                                         stmts: seq<Statement>, i: nat, k: nat, call: nat)
    requires i <= |stmts|
    ensures Batch(writes, outcome, stmts, i, k, call).executed <= |stmts| - i
    ensures var n := Batch(writes, outcome, stmts, i, k, call).executed;
      forall j :: 1 <= j < n ==> outcome(k + |Chain(writes, stmts, i, k, call, j)| - 1).None?
    decreases |stmts| - i
  {
    if i < |stmts| {
      var t := writes(call, stmts[i], k);
      if outcome(k + |t| - 1).None? {
        BatchEarlierStatementsSucceed(writes, outcome, stmts, i + 1, k + |t|, call + 1);
        var rest := Batch(writes, outcome, stmts, i + 1, k + |t|, call + 1);
        assert Batch(writes, outcome, stmts, i, k, call).executed == 1 + rest.executed;
        forall j | 1 <= j < 1 + rest.executed
          ensures outcome(k + |Chain(writes, stmts, i, k, call, j)| - 1).None?
        {
          ChainUnfold(writes, stmts, i, k, call, j);
        }
      }
    }
  }

  /**
   * The shape of a batch outcome `b` whose statements that ran wrote `c`,
   * starting at write number `k`, with `remaining` statements to run: when
   * the last write of `c` failed, one error message follows and `b` returns
   * that message's write outcome; otherwise all `remaining` statements ran,
   * nothing follows and `b` returns nil.
   */
  predicate SendsChain(b: BatchOutcome, c: seq<Message>, outcome: nat -> Option<Error>, k: nat, remaining: nat) {
    && (b.executed >= 1 && |c| >= 1 && outcome(k + |c| - 1).Some? ==>
          b.sent == c + [ErrorResponse(outcome(k + |c| - 1).value, false)] && b.err == outcome(k + |c|))
    && (b.executed == 0 || |c| == 0 || outcome(k + |c| - 1).None? ==>
          b.executed == remaining && b.sent == c && b.err.None?)
  }

  /** The shape carries over from the rest of a batch to a batch whose first statement wrote `t` successfully. */
  lemma SendsChainStep(t: seq<Message>, rest: BatchOutcome, c': seq<Message>, outcome: nat -> Option<Error>,
                       k: nat, remaining: nat)
    requires |t| >= 1 && outcome(k + |t| - 1).None? && remaining >= 1
    requires rest.executed == 0 ==> c' == []
    requires SendsChain(rest, c', outcome, k + |t|, remaining - 1)
    ensures SendsChain(BatchOutcome(t + rest.sent, 1 + rest.executed, rest.err), t + c', outcome, k, remaining)
  {
    var c := t + c';
    if |c'| >= 1 && outcome(k + |t| + |c'| - 1).Some? {
      Associative(t, c', [ErrorResponse(outcome(k + |c| - 1).value, false)]);
    }
  }

  /**
   * What a batch sends is the writes of the statements that ran, in order.
   * When the last of them ended with a failing write, one error message
   * follows and the batch returns that message's write outcome; otherwise
   * every statement ran and the batch returns nil.
   */
  lemma {:induction false} BatchSendsChain(writes: Writes, outcome: nat -> Option<Error>,
                                           stmts: seq<Statement>, i: nat, k: nat, call: nat)
    requires i <= |stmts|
    ensures Batch(writes, outcome, stmts, i, k, call).executed <= |stmts| - i
    ensures var b := Batch(writes, outcome, stmts, i, k, call);
      && (i < |stmts| ==> b.executed >= 1)
      && SendsChain(b, Chain(writes, stmts, i, k, call, b.executed), outcome, k, |stmts| - i)
    decreases |stmts| - i
  {
    var b := Batch(writes, outcome, stmts, i, k, call);
    if i == |stmts| {
      assert b == BatchOutcome([], 0, None);
      assert SendsChain(b, [], outcome, k, 0);
    } else {
      var t := writes(call, stmts[i], k);
      if outcome(k + |t| - 1).Some? {
        assert b == BatchOutcome(t + [ErrorResponse(outcome(k + |t| - 1).value, false)], 1, outcome(k + |t|));
        ChainUnfold(writes, stmts, i, k, call, 1);
        assert Chain(writes, stmts, i, k, call, b.executed) == t + [] == t;
        assert SendsChain(b, t, outcome, k, |stmts| - i);
      } else {
        var rest := Batch(writes, outcome, stmts, i + 1, k + |t|, call + 1);
        assert
          && rest.executed <= |stmts| - (i + 1)
          && SendsChain(rest, Chain(writes, stmts, i + 1, k + |t|, call + 1, rest.executed), outcome, k + |t|, |stmts| - i - 1)
        by {
          BatchSendsChain(writes, outcome, stmts, i + 1, k + |t|, call + 1);
        }
        BatchSendsChainContinues(writes, outcome, stmts, i, k, call);
      }
    }
  }

  /** The step of BatchSendsChain past a first statement whose last write succeeded. */
  lemma BatchSendsChainContinues(writes: Writes, outcome: nat -> Option<Error>,
                                 stmts: seq<Statement>, i: nat, k: nat, call: nat)
    requires i < |stmts|
    requires var t := writes(call, stmts[i], k);
      var rest := Batch(writes, outcome, stmts, i + 1, k + |t|, call + 1);
      && outcome(k + |t| - 1).None?
      && rest.executed <= |stmts| - (i + 1)
      && SendsChain(rest, Chain(writes, stmts, i + 1, k + |t|, call + 1, rest.executed), outcome, k + |t|, |stmts| - i - 1)
    ensures var b := Batch(writes, outcome, stmts, i, k, call);
      && 1 <= b.executed <= |stmts| - i
      && SendsChain(b, Chain(writes, stmts, i, k, call, b.executed), outcome, k, |stmts| - i)
  {
    var t := writes(call, stmts[i], k);
    var b := Batch(writes, outcome, stmts, i, k, call);
    var rest := Batch(writes, outcome, stmts, i + 1, k + |t|, call + 1);
    var c' := Chain(writes, stmts, i + 1, k + |t|, call + 1, rest.executed);
    assert b == BatchOutcome(t + rest.sent, 1 + rest.executed, rest.err);
    assert Chain(writes, stmts, i, k, call, b.executed) == t + c' by {
      ChainUnfold(writes, stmts, i, k, call, b.executed);
    }
    SendsChainStep(t, rest, c', outcome, k, |stmts| - i);
  }

  /**
   * A batch that has written `sent` since `start` and runs statement i
   * next, with write number k and backend call `call`, has `total` as its
   * outcome.
   */
  ghost predicate Progress(writes: Writes, outcome: nat -> Option<Error>, stmts: seq<Statement>, i: nat, k: nat, call: nat,
                           start: seq<Message>, total: BatchOutcome, sent: seq<Message>)
    requires i <= |stmts|
  {
    var rest := Batch(writes, outcome, stmts, i, k, call);
    start + total.sent == sent + rest.sent && total.executed == i + rest.executed && total.err == rest.err
  }

  /**
   * The batch from statement i on continues past statement i when that
   * statement's last write succeeds: what was sent grows by those messages,
   * and one more statement ran.
   */
  lemma BatchContinues(writes: Writes, outcome: nat -> Option<Error>, stmts: seq<Statement>, i: nat, call: nat,
                       start: seq<Message>, total: BatchOutcome, before: seq<Message>, after: seq<Message>)
    requires i < |stmts| && Progress(writes, outcome, stmts, i, |before|, call, start, total, before)
    requires after == before + writes(call, stmts[i], |before|) && outcome(|after| - 1).None?
    ensures Progress(writes, outcome, stmts, i + 1, |after|, call + 1, start, total, after)
  {
    var t := writes(call, stmts[i], |before|);
    Associative(before, t, Batch(writes, outcome, stmts, i + 1, |after|, call + 1).sent);
  }

  /**
   * The batch from statement i on ends at statement i when that
   * statement's last write fails: what follows is that error, and the
   * batch returns the outcome of writing it.
   */
  lemma BatchStops(writes: Writes, outcome: nat -> Option<Error>, stmts: seq<Statement>, i: nat, call: nat,
                   start: seq<Message>, total: BatchOutcome, before: seq<Message>, after: seq<Message>)
    requires i < |stmts| && Progress(writes, outcome, stmts, i, |before|, call, start, total, before)
    requires after == before + writes(call, stmts[i], |before|) && outcome(|after| - 1).Some?
    ensures start + total.sent == after + [ErrorResponse(outcome(|after| - 1).value, false)]
    ensures total.executed == i + 1 && total.err == outcome(|after|)
  {
    var t := writes(call, stmts[i], |before|);
    Associative(before, t, [ErrorResponse(outcome(|after| - 1).value, false)]);
  }

  /** One statement of the loop: the path its kind selects, returning the outcome of the path's last write. */
  method RunStatement(s: Session, stmt: Statement) returns (err: Option<Error>)
    requires s.Valid()
    modifies s
    ensures s.backendCalls == old(s.backendCalls) + 1
    ensures s.sent == old(s.sent) + s.writes(old(s.backendCalls), stmt, |old(s.sent)|)
    ensures err == s.writeOutcome(|s.sent| - 1)
  {
    assert s.WritesAgree(s.backendCalls, stmt, |s.sent|);
    match stmt.kind {
      case VariableShowStmt => err := Query(s, stmt);
      case SelectStmt => err := Query(s, stmt);
      case _ => err := Exec(s, stmt);
    }
  }

  /**
   * query.Run: parse the request, then run each statement on the path its
   * kind selects. A parse failure writes one error message and runs nothing.
   */
  method Run(s: Session, parse: string -> Result<seq<Statement>, Error>, sql: string)
    returns (err: Option<Error>)
    requires s.Valid()
    modifies s
    ensures parse(sql).Failure? ==>
      && s.sent == old(s.sent) + [ErrorResponse(parse(sql).error, false)]
      && s.backendCalls == old(s.backendCalls)
      && err == s.writeOutcome(|old(s.sent)|)
    ensures parse(sql).Success? ==>
      var b := Batch(s.writes, s.writeOutcome, parse(sql).value, 0, |old(s.sent)|, old(s.backendCalls));
      && s.sent == old(s.sent) + b.sent
      && s.backendCalls == old(s.backendCalls) + b.executed
      && err == b.err
  {
    var parsed := parse(sql);
    if parsed.Failure? {
      err := s.Write(ErrorResponse(parsed.error, false));
      return;
    }
    err := RunStatements(s, parsed.value);
  }

  /**
   * One turn of the statement loop of query.Run: statement i's path and,
   * when that path returns an error, the error message that ends the loop
   * (`stop`). `total` is the batch's outcome from its start on.
   */
  method RunNext(s: Session, stmts: seq<Statement>, i: nat, ghost total: BatchOutcome, ghost start: seq<Message>)
    returns (err: Option<Error>, stop: bool)
    requires s.Valid() && i < |stmts|
    requires Progress(s.writes, s.writeOutcome, stmts, i, |s.sent|, s.backendCalls, start, total, s.sent)
    modifies s
    ensures s.backendCalls == old(s.backendCalls) + 1
    ensures !stop ==> Progress(s.writes, s.writeOutcome, stmts, i + 1, |s.sent|, s.backendCalls, start, total, s.sent)
    ensures stop ==> s.sent == start + total.sent && total.executed == i + 1 && err == total.err
  {
    ghost var before, call := s.sent, s.backendCalls;
    err := RunStatement(s, stmts[i]);
    stop := err.Some?;
    if stop {
      BatchStops(s.writes, s.writeOutcome, stmts, i, call, start, total, before, s.sent);
      err := s.Write(ErrorResponse(err.value, false));
    } else {
      BatchContinues(s.writes, s.writeOutcome, stmts, i, call, start, total, before, s.sent);
    }
  }

  /** The statement loop of query.Run: stops at the first statement whose path returns an error. */
  method RunStatements(s: Session, stmts: seq<Statement>) returns (err: Option<Error>)
    requires s.Valid()
    modifies s
    ensures var b := Batch(s.writes, s.writeOutcome, stmts, 0, |old(s.sent)|, old(s.backendCalls));
      && s.sent == old(s.sent) + b.sent
      && s.backendCalls == old(s.backendCalls) + b.executed
      && err == b.err
  {
    ghost var total := Batch(s.writes, s.writeOutcome, stmts, 0, |s.sent|, s.backendCalls);
    for i := 0 to |stmts|
      invariant s.backendCalls == old(s.backendCalls) + i
      invariant Progress(s.writes, s.writeOutcome, stmts, i, |s.sent|, s.backendCalls, old(s.sent), total, s.sent)
    {
      var stop;
      err, stop := RunNext(s, stmts, i, total, old(s.sent));
      if stop {
        return;
      }
    }
    assert s.sent + [] == s.sent;
    err := None;
  }
}
