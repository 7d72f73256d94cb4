/**
  A node of a group (conn.py `Node`, with the hooks of logconn.py's `SSHNode` and
  `SQLNode`): its connection lifecycle, the command it runs for a search and the way it
  turns backend output into lines.
 */
module Nodes {
  import opened Wrappers
  import opened Errors
  import opened Text
  import opened Topology
  import opened Tracing
  import opened Backends

  /** The connection parameters a node stores; the variant is the node kind (a shell
      node of a 'file' group, or a database node). */
  datatype ConnArgs =
    | ShellArgs(nodeName: string, user: string, password: Option<string>, remoteDir: string,
                keyFilename: string, keyPassword: string)
    | DatabaseArgs(nodeName: string, user: string, password: Option<string>,
                   sid: Option<string>, serviceName: Option<string>)

  /** What `connect` raises when a node has no backend connection. */
  const NoBackendError := "'NoneType' object has no attribute 'connect'"

  const SourceNameToken := "{{source_name}}"
  const SearchStrToken := "{{search_str}}"
  const SearchDateToken := "{{search_date}}"

  /** Ends every rendered database row. */
  const RowSeparator := "\n--------------------------------------\n"

  // ---------------------------------------------------------------------------
  // The search command

  /** The substitutions of a search, in the order they are applied. */
  function SearchParams(source: Source, searchStr: string, searchDate: string): seq<(string, string)> {
    [(SourceNameToken, source.sourceName), (SearchStrToken, searchStr), (SearchDateToken, searchDate)]
  }

  /** `s` after replacing each token of `params` by its value, one pair after the other. */
  function ReplaceEach(s: string, params: seq<(string, string)>): string
    requires forall i :: 0 <= i < |params| ==> params[i].0 != []
  {
    if params == [] then s
    else Replace(ReplaceEach(s, params[..|params| - 1]), params[|params| - 1].0, params[|params| - 1].1)
  }

  /** The search command: the template with the file mask or table, then the search
      text, then the date substituted, each as a literal replace-all. */
  function SearchCommand(source: Source, searchStr: string, searchDate: string): string {
    Replace(Replace(Replace(source.expr, SourceNameToken, source.sourceName),
                    SearchStrToken, searchStr),
            SearchDateToken, searchDate)
  }

  /** A template with none of the three tokens is the command itself; any other
      `{{...}}` text is left as it is. */
  lemma SearchCommandWithoutTokens(source: Source, searchStr: string, searchDate: string)
    requires !Contains(source.expr, SourceNameToken)
    requires !Contains(source.expr, SearchStrToken)
    requires !Contains(source.expr, SearchDateToken)
    ensures SearchCommand(source, searchStr, searchDate) == source.expr
  {
    ReplaceAbsent(source.expr, SourceNameToken, source.sourceName);
    ReplaceAbsent(source.expr, SearchStrToken, searchStr);
    ReplaceAbsent(source.expr, SearchDateToken, searchDate);
  }

  /** The substitutions cascade: a search text that is itself the date token is replaced
      by the date in turn. */
  lemma SearchCommandCascades(name: string, sourceName: string, searchDate: string)
    ensures SearchCommand(Source(name, sourceName, SearchStrToken, []), SearchDateToken, searchDate)
            == searchDate
  {
    assert !Contains(SearchStrToken, SourceNameToken);
    ReplaceAbsent(SearchStrToken, SourceNameToken, sourceName);
    ReplaceAtMatch([], SearchStrToken, SearchDateToken);
    assert SearchStrToken + [] == SearchStrToken && SearchDateToken + [] == SearchDateToken;
    ReplaceAtMatch([], SearchDateToken, searchDate);
    assert searchDate + [] == searchDate;
  }

  /** The search-text token is not mistaken for the file-mask token. */
  lemma SourceNameSkipsSearchStrToken(b: string, rep: string)
    ensures Replace(SearchStrToken + b, SourceNameToken, rep) == SearchStrToken + Replace(b, SourceNameToken, rep)
  {
    var rest := "search_str}}";
    assert SearchStrToken == "{{" + rest;
    assert rest[1] == 'e' && SourceNameToken[3] == 'o';
    SkipBracedWord(rest, b, SourceNameToken, rep);
  }

  /** A `{{`-word that differs from `pat` at its second letter is copied unchanged. */
  lemma SkipBracedWord(rest: string, b: string, pat: string, rep: string)
    requires |pat| >= 4 && pat[0] == '{' && pat[1] == '{'
    requires |rest| >= 2 && '{' !in rest && rest[1] != pat[3]
    ensures Replace("{{" + rest + b, pat, rep) == "{{" + rest + Replace(b, pat, rep)
  {
    var t := rest + b;
    assert rest[0] in rest;
    SkipBracePair(t, pat, rep);
    ReplaceSkips(rest, b, pat, rep);
    BraceAssoc(rest, b);
    BraceAssoc(rest, Replace(b, pat, rep));
  }

  /** Regrouping after the two opening braces. */
  lemma BraceAssoc(x: string, y: string)
    ensures "{{" + x + y == "{{" + (x + y)
  {
  }

  /** Two opening braces followed by text that cannot complete `pat` are copied. */
  lemma SkipBracePair(t: string, pat: string, rep: string)
    requires |pat| >= 4 && pat[0] == '{' && pat[1] == '{'
    requires |t| >= 2 && t[0] != '{' && t[1] != pat[3]
    ensures Replace("{{" + t, pat, rep) == "{{" + Replace(t, pat, rep)
  {
    var c := pat[0];
    var s1 := [c] + t;
    ReplaceSkipsMismatch(c, t, pat, rep, 1);
    ReplaceSkipsMismatch(c, s1, pat, rep, 3);
    DoubleBrace(t);
    DoubleBrace(Replace(t, pat, rep));
  }

  /** Two opening braces in front of a text, one character at a time. */
  lemma DoubleBrace(x: string)
    ensures "{{" + x == ['{'] + (['{'] + x)
  {
  }

  /** The file mask goes into its slot; the search-text token before it is kept. */
  lemma FillSourceNameSlot(pre: string, mid: string, post: string, sn: string)
    requires '{' !in pre && '{' !in mid && '{' !in post
    ensures Replace(pre + (SearchStrToken + (mid + (SourceNameToken + post))), SourceNameToken, sn)
            == pre + (SearchStrToken + (mid + (sn + post)))
  {
    var p := SourceNameToken;
    ReplaceSkips(post, [], p, sn);
    assert post + [] == post;
    ReplaceAtMatch(post, p, sn);
    ReplaceSkips(mid, p + post, p, sn);
    SourceNameSkipsSearchStrToken(mid + (p + post), sn);
    ReplaceSkips(pre, SearchStrToken + (mid + (p + post)), p, sn);
  }

  /** The search text goes into its slot. */
  lemma FillSearchStrSlot(pre: string, tail: string, searchStr: string)
    requires '{' !in pre && '{' !in tail
    ensures Replace(pre + (SearchStrToken + tail), SearchStrToken, searchStr) == pre + (searchStr + tail)
  {
    var p := SearchStrToken;
    ReplaceSkips(tail, [], p, searchStr);
    assert tail + [] == tail;
    ReplaceAtMatch(tail, p, searchStr);
    ReplaceSkips(pre, p + tail, p, searchStr);
  }

  /** A template of the form `pre{{search_str}}mid{{source_name}}post`, with no `{` in
      the fixed parts nor in the values, becomes `pre<search text>mid<file mask>post`,
      whatever the date. */
  lemma SearchCommandFillsSlots(source: Source, searchStr: string, searchDate: string,
                                pre: string, mid: string, post: string)
    requires source.expr == pre + (SearchStrToken + (mid + (SourceNameToken + post)))
    requires '{' !in pre && '{' !in mid && '{' !in post
    requires '{' !in source.sourceName && '{' !in searchStr
    ensures SearchCommand(source, searchStr, searchDate) == pre + (searchStr + (mid + (source.sourceName + post)))
  {
    var sn := source.sourceName;
    FillSourceNameSlot(pre, mid, post, sn);
    var tail := mid + (sn + post);
    assert '{' !in tail;
    FillSearchStrSlot(pre, tail, searchStr);
    var step2 := pre + (searchStr + tail);
    assert '{' !in step2;
    ReplaceSkips(step2, [], SearchDateToken, searchDate);
    assert step2 + [] == step2;
  }

  /** `grep '{{search_str}}' {{source_name}}.log` has the slots of `SearchCommandFillsSlots`. */
  lemma GrepTemplateSlots(e: string)
    requires e == "grep '{{search_str}}' {{source_name}}.log"
    ensures e == "grep '" + (SearchStrToken + ("' " + (SourceNameToken + ".log")))
  {
    assert SearchStrToken == "{{search_str}}" && SourceNameToken == "{{source_name}}";
  }

  /** The template `grep '{{search_str}}' {{source_name}}.log` searched for "ERROR" in the
      file mask "app" gives `grep 'ERROR' app.log`, whatever the date. */
  lemma SearchCommandGrepExample(source: Source, searchDate: string)
    requires source.expr == "grep '{{search_str}}' {{source_name}}.log" && source.sourceName == "app"
    ensures SearchCommand(source, "ERROR", searchDate) == "grep 'ERROR' app.log"
  {
    GrepTemplateSlots(source.expr);
    GrepExampleTexts();
    SearchCommandFillsSlots(source, "ERROR", searchDate, "grep '", "' ", ".log");
  }

  lemma GrepExampleTexts()
    ensures '{' !in "grep '" && '{' !in "' " && '{' !in ".log" && '{' !in "app" && '{' !in "ERROR"
    ensures "grep '" + ("ERROR" + ("' " + ("app" + ".log"))) == "grep 'ERROR' app.log"
  {
  }

  // ---------------------------------------------------------------------------
  // Command preparation and output normalisation

  /** The command a node sends to its backend: a shell node first changes to its remote
      directory, a database node sends the statement as it is. */
  function PrepareInCmd(args: ConnArgs, cmd: string): string {
    match args
    case ShellArgs(_, _, _, remoteDir, _, _) => "cd " + remoteDir + "\n" + cmd
    case DatabaseArgs(_, _, _, _, _) => cmd
  }

  /** For a remote directory without a line break, the shell command's first line is the
      change of directory and the lines after it are exactly the requested command. */
  lemma ShellCommandRunsInRemoteDir(args: ConnArgs, cmd: string)
    requires args.ShellArgs? && '\n' !in args.remoteDir
    ensures var lines := Split(PrepareInCmd(args, cmd), "\n");
            lines[0] == "cd " + args.remoteDir && Join(lines[1..], "\n") == cmd
  {
    var head := "cd " + args.remoteDir;
    assert '\n' !in head by {
      forall k | 0 <= k < |head| ensures head[k] != '\n' {
        if k >= 3 { assert head[k] == args.remoteDir[k - 3]; }
      }
    }
    assert PrepareInCmd(args, cmd) == head + ['\n'] + cmd;
    SplitAtFirst(head, '\n', cmd);
    JoinSplit(cmd, "\n");
  }

  /** One column of a database row: `name:'value' `, or for an XML field the name and
      the pretty-printed value on lines of their own. */
  function RenderField(f: OutField, col: string, indent: string -> string): string {
    if !f.isXml then f.name + ":'" + col + "' "
    else "\n" + f.name + ":\n" + indent(col) + "\n"
  }

  /** The columns of a row, column `i` rendered with field `i`. */
  function RenderCols(row: Row, fields: seq<OutField>, indent: string -> string): string
    requires |row| <= |fields|
  {
    if row == [] then ""
    else RenderCols(row[..|row| - 1], fields, indent) + RenderField(fields[|row| - 1], row[|row| - 1], indent)
  }

  /** Every row has a field for each of its columns. */
  predicate FitsFields(rows: seq<Row>, fields: seq<OutField>) {
    forall k :: 0 <= k < |rows| ==> |rows[k]| <= |fields|
  }

  /** One row rendered and closed by the separator. */
  function RowLine(row: Row, fields: seq<OutField>, indent: string -> string): string
    requires |row| <= |fields|
  {
    RenderCols(row, fields, indent) + RowSeparator
  }

  /** The rendered rows, one string per row ending in the separator, or None when some
      row has more columns than there are fields (the renderer's index error). */
  function RenderRows(rows: seq<Row>, fields: seq<OutField>, indent: string -> string): Option<seq<string>>
    decreases |rows|
  {
    if rows == [] then Some([])
    else
      var init := RenderRows(rows[..|rows| - 1], fields, indent);
      var last := rows[|rows| - 1];
      if init.None? || |last| > |fields| then None
      else Some(init.value + [RowLine(last, fields, indent)])
  }

  /** Rendering succeeds exactly when every row fits. */
  lemma {:induction false} RenderRowsFits(rows: seq<Row>, fields: seq<OutField>, indent: string -> string)
    ensures RenderRows(rows, fields, indent).Some? <==> FitsFields(rows, fields)
    decreases |rows|
  {
    if rows != [] {
      var init, last := rows[..|rows| - 1], rows[|rows| - 1];
      assert rows == init + [last];
      assert forall k :: 0 <= k < |init| ==> init[k] == rows[k];
      RenderRowsFits(init, fields, indent);
      assert (init + [last])[..|init|] == init;
      assert RenderRows(rows, fields, indent).Some? <==> RenderRows(init, fields, indent).Some? && |last| <= |fields|;
      if !FitsFields(rows, fields) {
        var k :| 0 <= k < |rows| && |rows[k]| > |fields|;
        if k < |init| {
          assert |init[k]| > |fields|;
        }
      }
    }
  }

  /** A row that fits, added at the end, adds its line at the end. */
  lemma RenderRowsSnoc(init: seq<Row>, last: Row, fields: seq<OutField>, indent: string -> string)
    requires RenderRows(init, fields, indent).Some? && |last| <= |fields|
    ensures RenderRows(init + [last], fields, indent) == Some(RenderRows(init, fields, indent).value + [RowLine(last, fields, indent)])
  {
    assert (init + [last])[..|init|] == init;
  }

  /** When every row fits, line `k` of the rendering is row `k` rendered. */
  lemma {:induction false} RenderRowsPointwise(rows: seq<Row>, fields: seq<OutField>, indent: string -> string)
    requires FitsFields(rows, fields)
    ensures RenderRows(rows, fields, indent).Some?
    ensures |RenderRows(rows, fields, indent).value| == |rows|
    ensures forall k :: 0 <= k < |rows| ==> RenderRows(rows, fields, indent).value[k] == RowLine(rows[k], fields, indent)
    decreases |rows|
  {
    if rows != [] {
      var init, last := rows[..|rows| - 1], rows[|rows| - 1];
      assert rows == init + [last];
      assert forall k :: 0 <= k < |init| ==> init[k] == rows[k];
      RenderRowsPointwise(init, fields, indent);
      var r0 := RenderRows(init, fields, indent).value;
      RenderRowsSnoc(init, last, fields, indent);
      var ls := r0 + [RowLine(last, fields, indent)];
      forall k | 0 <= k < |rows|
        ensures ls[k] == RowLine(rows[k], fields, indent)
      {
        if k < |init| {
          assert ls[k] == r0[k];
        }
      }
    }
  }

  /** A row with more columns than fields makes the whole rendering fail. */
  lemma RenderRowsStops(rs: seq<Row>, fields: seq<OutField>, indent: string -> string, k: nat)
    requires k < |rs| && |rs[k]| > |fields|
    ensures RenderRows(rs, fields, indent) == None
  {
    RenderRowsFits(rs, fields, indent);
  }

  /** The lines a node makes of its backend's output, or None when normalising raises:
      shell output is taken as it is, no rows give no lines. */
  function Normalized(out: RawOutput, fields: seq<OutField>, indent: string -> string): Option<seq<string>> {
    match out
    case Lines(lines) => Some(lines)
    case Rows(None) => Some([])
    case Rows(Some(rows)) => RenderRows(rows, fields, indent)
  }

  /** Rendering gives one string per row, in row order, each ending in the separator, and
      fails exactly when a row outgrows the fields. */
  lemma RenderRowsShape(rows: seq<Row>, fields: seq<OutField>, indent: string -> string)
    ensures RenderRows(rows, fields, indent).None? <==> exists k :: 0 <= k < |rows| && |rows[k]| > |fields|
    ensures RenderRows(rows, fields, indent).Some? ==>
      var ls := RenderRows(rows, fields, indent).value;
      |ls| == |rows| &&
      forall k :: 0 <= k < |rows| ==>
        |ls[k]| >= |RowSeparator| && ls[k][|ls[k]| - |RowSeparator|..] == RowSeparator
  {
    RenderRowsFits(rows, fields, indent);
    var r := RenderRows(rows, fields, indent);
    if r.Some? {
      RenderRowsPointwise(rows, fields, indent);
      forall k | 0 <= k < |rows|
        ensures |r.value[k]| >= |RowSeparator| && r.value[k][|r.value[k]| - |RowSeparator|..] == RowSeparator
      {
        var c := RenderCols(rows[k], fields, indent);
        assert r.value[k] == c + RowSeparator;
        assert (c + RowSeparator)[|c|..] == RowSeparator;
      }
    }
  }

  /** Rendering one more column appends that column's text. */
  lemma RenderColsStep(row: Row, fields: seq<OutField>, indent: string -> string, i: nat)
    requires i < |row| && i < |fields|
    ensures RenderCols(row[..i + 1], fields, indent) == RenderCols(row[..i], fields, indent) + RenderField(fields[i], row[i], indent)
  {
    assert row[..i + 1][..i] == row[..i];
  }

  /** The rendering of the first `j` columns is the start of the row's rendering. */
  lemma {:induction false} RenderColsPrefix(row: Row, fields: seq<OutField>, indent: string -> string, j: nat)
    requires |row| <= |fields| && j <= |row|
    ensures StartsWith(RenderCols(row, fields, indent), RenderCols(row[..j], fields, indent))
    decreases |row| - j
  {
    if j == |row| {
      assert row[..j] == row;
      StartsWithAppend(RenderCols(row, fields, indent), "");
    } else {
      RenderColsPrefix(row, fields, indent, j + 1);
      RenderColsStep(row, fields, indent, j);
      StartsWithAppend(RenderCols(row[..j], fields, indent), RenderField(fields[j], row[j], indent));
      StartsWithTransitive(RenderCols(row, fields, indent), RenderCols(row[..j + 1], fields, indent),
                           RenderCols(row[..j], fields, indent));
    }
  }

  /** Column `i` of a row appears in the rendered row, labelled by field `i`, right after
      the columns before it. */
  lemma RenderColsLabels(row: Row, fields: seq<OutField>, indent: string -> string, i: nat)
    requires |row| <= |fields| && i < |row|
    ensures StartsWith(RenderCols(row, fields, indent),
                       RenderCols(row[..i], fields, indent) + RenderField(fields[i], row[i], indent))
  {
    RenderColsPrefix(row, fields, indent, i + 1);
    assert row[..i + 1][..i] == row[..i];
  }

  /** The row ("2024-01-01", "ERR1") with plain fields `date` and `msg` renders as
      `date:'2024-01-01' msg:'ERR1' ` followed by the separator. */
  lemma RenderRowsExample(indent: string -> string)
    ensures RenderRows([["2024-01-01", "ERR1"]], [OutField("date", false), OutField("msg", false)], indent)
            == Some(["date:'2024-01-01' msg:'ERR1' " + RowSeparator])
  {
    var fields := [OutField("date", false), OutField("msg", false)];
    var row: Row := ["2024-01-01", "ERR1"];
    RenderTwoColumns(row[0], row[1], fields, indent);
    RenderOneRow(row, fields, indent);
    ExampleColumns(indent);
  }

  lemma ExampleColumns(indent: string -> string)
    ensures RenderField(OutField("date", false), "2024-01-01", indent) + RenderField(OutField("msg", false), "ERR1", indent)
            == "date:'2024-01-01' msg:'ERR1' "
  {
    PlainField("date", "2024-01-01", indent);
    PlainField("msg", "ERR1", indent);
    ExampleText();
  }

  lemma PlainField(name: string, col: string, indent: string -> string)
    ensures RenderField(OutField(name, false), col, indent) == name + ":'" + col + "' "
  {
  }

  lemma ExampleText()
    ensures "date" + ":'" + "2024-01-01" + "' " + ("msg" + ":'" + "ERR1" + "' ") == "date:'2024-01-01' msg:'ERR1' "
  {
  }

  lemma RenderTwoColumns(a: string, b: string, fields: seq<OutField>, indent: string -> string)
    requires |fields| >= 2
    ensures RenderCols([a, b], fields, indent) == RenderField(fields[0], a, indent) + RenderField(fields[1], b, indent)
  {
    var one := RenderField(fields[0], a, indent);
    assert [a][..0] == [];
    assert RenderCols([a], fields, indent) == "" + one;
    assert "" + one == one;
    assert [a, b][..1] == [a];
  }

  lemma RenderOneRow(row: Row, fields: seq<OutField>, indent: string -> string)
    requires |row| <= |fields|
    ensures RenderRows([row], fields, indent) == Some([RenderCols(row, fields, indent) + RowSeparator])
  {
    assert [row][..0] == [];
    assert RenderRows([], fields, indent) == Some([]);
    var line := RowLine(row, fields, indent);
    assert [] + [line] == [line];
  }

  /** A database statement that fails yields no lines; a shell command that fails
      yields no output at all. */
  lemma FailedStatementYieldsNoRows(t: Transport, cmd: string, fields: seq<OutField>, indent: string -> string)
    requires t.Database? && t.query(cmd).Raised?
    ensures ExecReply(t, true, cmd) == Returned(Rows(None))
    ensures Normalized(ExecReply(t, true, cmd).value, fields, indent) == Some([])
  {
  }

  // ---------------------------------------------------------------------------
  // The node

  class Node {
    const tracer: Tracer?
    const name: string
    const args: ConnArgs
    const conn: Backend?
    const indent: string -> string
    var connected: bool

    /** A node of either kind; a shell node's backend is a shell, a database node's a
        database. */
    constructor (tracer: Tracer?, name: string, args: ConnArgs, conn: Backend?, indent: string -> string)
      requires conn != null ==> (args.ShellArgs? <==> conn.transport.Shell?)
      ensures this.tracer == tracer && this.name == name && this.args == args
      ensures this.conn == conn && this.indent == indent
      ensures !connected
    {
      this.tracer := tracer;
      this.name := name;
      this.args := args;
      this.conn := conn;
      this.indent := indent;
      connected := false;
    }

    /** Whether `connect` succeeds: there is a backend and its server accepts. */
    predicate WillConnect() {
      conn != null && conn.outcome.Accepted?
    }

    /** The exception arguments of a failed connect. */
    function FailureArgs(): seq<string>
      requires !WillConnect()
    {
      if conn == null then [NoBackendError] else conn.outcome.args
    }

    /** The one message `connect` traces. */
    function ConnectTrace(): TraceLine {
      if WillConnect() then TraceLine(ConnStart(args.nodeName) + ConnOk, false)
      else TraceLine(ConnStart(args.nodeName) + ConnFailed + ", [" + Join(FailureArgs(), ", ") + "]", true)
    }

    /** Connects: on success `connected` becomes true and the result is `true`; on failure
        `connected` becomes false and there is no result. Either way exactly one message is
        traced, flagged as an error on failure. */
    method Connect() returns (r: Option<bool>)
      modifies this, conn, tracer
      ensures connected == WillConnect()
      ensures r == (if WillConnect() then Some(true) else None)
      ensures conn != null ==> conn.isOpen == WillConnect() && conn.calls == old(conn.calls) + [ConnectCall]
      ensures tracer != null ==> tracer.lines == old(tracer.lines) + [ConnectTrace()]
    {
      var traceStr := ConnStart(args.nodeName);
      if conn == null {
        connected := false;
        traceStr := traceStr + ConnFailed + ", [" + Join([NoBackendError], ", ") + "]";
      } else {
        var outcome := conn.Connect();
        match outcome
        case Refused(exArgs) =>
          connected := false;
          traceStr := traceStr + ConnFailed + ", [" + Join(exArgs, ", ") + "]";
        case Accepted =>
          connected := true;
          traceStr := traceStr + ConnOk;
      }
      if tracer != null {
        tracer.Trace(traceStr, !connected);
      }
      r := if connected then Some(true) else None;
    }

    /** The text of one database row, column by column; None when the row has more
        columns than there are fields. */
    method PrepareRowStr(row: Row, fields: seq<OutField>) returns (r: Option<string>)
      ensures r.Some? <==> |row| <= |fields|
      ensures r.Some? ==> r.value == RenderCols(row, fields, indent)
    {
      var rowStr := "";
      for i := 0 to |row|
        invariant i <= |fields|
        invariant rowStr == RenderCols(row[..i], fields, indent)
      {
        if i >= |fields| {
          return None;
        }
        var field := fields[i];
        RenderColsStep(row, fields, indent, i);
        if !field.isXml {
          rowStr := rowStr + (field.name + ":'" + row[i] + "' ");
        } else {
          rowStr := rowStr + ("\n" + field.name + ":\n" + indent(row[i]) + "\n");
        }
      }
      assert row[..|row|] == row;
      r := Some(rowStr);
    }

    /** The node's rendering of a backend output: shell lines unchanged, database rows
        rendered with `source`'s fields, None when a row outgrows the fields. */
    method PrepareOutStr(out: RawOutput, source: Source) returns (r: Option<seq<string>>)
      ensures r == Normalized(out, source.fields, indent)
    {
      match out
      case Lines(lines) =>
        r := Some(lines);
      case Rows(rows) =>
        if rows.Some? && rows.value != [] {
          r := PrepareRows(rows.value, source.fields);
        } else {
          r := Some([]);
        }
    }

    /** The rows of a database answer rendered one by one, stopping at the first row
        with more columns than fields. */
    method PrepareRows(rs: seq<Row>, fields: seq<OutField>) returns (r: Option<seq<string>>)
      ensures r == RenderRows(rs, fields, indent)
    {
      var resList: seq<string> := [];
      for k := 0 to |rs|
        invariant RenderRows(rs[..k], fields, indent) == Some(resList)
      {
        var rowStr := PrepareRowStr(rs[k], fields);
        if rowStr.None? {
          RenderRowsStops(rs, fields, indent, k);
          return None;
        }
        assert rs[..k + 1][..k] == rs[..k];
        resList := resList + [rowStr.value + RowSeparator];
      }
      assert rs[..|rs|] == rs;
      r := Some(resList);
    }

    /** The lines `exec_cmd` returns for `cmd` when the backend session is `open` or not:
        nothing when the backend or the normalisation raises. */
    function Output(open: bool, source: Source, cmd: string): seq<string>
      requires conn != null
    {
      match ExecReply(conn.transport, open, PrepareInCmd(args, cmd))
      case Raised(_) => []
      case Returned(out) => Normalized(out, source.fields, indent).GetOr([])
    }

    /** Runs `cmd` through the backend, tracing it first; without a backend it does nothing
        and returns no lines. */
    method ExecCmd(source: Source, cmd: string) returns (lines: seq<string>)
      modifies conn, tracer
      ensures conn == null ==> lines == []
      ensures conn != null ==>
        lines == Output(old(conn.isOpen), source, cmd) && conn.isOpen == old(conn.isOpen) &&
        conn.calls == old(conn.calls) + [ExecCall(PrepareInCmd(args, cmd))]
      ensures tracer != null ==>
        tracer.lines == old(tracer.lines) + (if conn != null then [TraceLine(InfoExecCmd(cmd), false)] else [])
    {
      lines := [];
      if conn != null {
        if tracer != null {
          tracer.Trace(InfoExecCmd(cmd), false);
        }
        var prepared := PrepareInCmd(args, cmd);
        var out := conn.Exec(prepared);
        match out
        case Raised(_) =>
          lines := [];
        case Returned(raw) =>
          var outList := PrepareOutStr(raw, source);
          lines := outList.GetOr([]);
      }
    }

    /** The search command for `source` (prepare_search_cmd), by substituting the three
        parameters in turn. */
    method PrepareSearchCmd(source: Source, searchStr: string, searchDate: string) returns (cmd: string)
      ensures cmd == SearchCommand(source, searchStr, searchDate)
    {
      cmd := source.expr;
      var replParams := SearchParams(source, searchStr, searchDate);
      for i := 0 to |replParams|
        invariant cmd == ReplaceEach(source.expr, replParams[..i])
      {
        assert replParams[..i + 1][..i] == replParams[..i];
        cmd := Replace(cmd, replParams[i].0, replParams[i].1);
      }
      assert replParams[..3] == replParams;
      assert replParams[..3][..2] == replParams[..2] && replParams[..2][..1] == replParams[..1];
      assert replParams[..1][..0] == [];
      var step1 := Replace(source.expr, SourceNameToken, source.sourceName);
      assert ReplaceEach(source.expr, replParams[..1]) == step1;
      var step2 := Replace(step1, SearchStrToken, searchStr);
      assert ReplaceEach(source.expr, replParams[..2]) == step2;
    }

    /** Searches `source`: runs the search command through `ExecCmd`. */
    method Search(source: Source, searchStr: string, searchDate: string) returns (lines: seq<string>)
      modifies conn, tracer
      ensures conn == null ==> lines == []
      ensures conn != null ==>
        var cmd := SearchCommand(source, searchStr, searchDate);
        lines == Output(old(conn.isOpen), source, cmd) && conn.isOpen == old(conn.isOpen) &&
        conn.calls == old(conn.calls) + [ExecCall(PrepareInCmd(args, cmd))]
      ensures tracer != null ==>
        tracer.lines == old(tracer.lines) +
          (if conn != null then [TraceLine(InfoExecCmd(SearchCommand(source, searchStr, searchDate)), false)] else [])
    {
      lines := [];
      if conn != null {
        var cmd := PrepareSearchCmd(source, searchStr, searchDate);
        var outList := ExecCmd(source, cmd);
        lines := lines + outList;
      }
    }

    /** The exception closing this node's backend raises, if it raises. */
    function CloseFault(): Option<Fault> {
      if conn != null && conn.closeOutcome.CloseRefused? then Some(CloseFailed(conn.closeOutcome.args)) else None
    }

    /** Closes the backend and traces it, but only for a connected node with a backend;
        `connected` stays as it is. A close that raises passes the exception on, and then
        nothing is traced. */
    method Close() returns (fault: Option<Fault>)
      modifies conn, tracer
      ensures fault == (if connected then CloseFault() else None)
      ensures conn != null && connected ==>
        conn.isOpen == (old(conn.isOpen) && fault.Some?) && conn.calls == old(conn.calls) + [CloseCall]
      ensures conn != null && !connected ==> conn.isOpen == old(conn.isOpen) && conn.calls == old(conn.calls)
      ensures tracer != null ==>
        tracer.lines == old(tracer.lines) +
          (if conn != null && connected && fault.None? then [TraceLine(ConnClosed(args.nodeName), false)] else [])
    {
      fault := None;
      if conn != null && connected {
        var o := conn.Close();
        if o.CloseRefused? {
          return Some(CloseFailed(o.args));
        }
        if tracer != null {
          tracer.Trace(ConnClosed(args.nodeName), false);
        }
      }
    }
  }
}
