# loganalyzer connection engine, modelled in Dafny

loganalyzer searches log files and database tables spread over several machines. A
*connection* reads a configuration document that lists *node groups*. A node group has
*nodes*, which are SSH hosts for a `file` group or Oracle databases for a `database`
group. It also has named *sources*, each a command template with `{{source_name}}`,
`{{search_str}}` and `{{search_date}}` placeholders, and *patterns* that say how to sort
and display the lines found.

A search or a command goes to one node group. The group walks its nodes in their
declared order. For each node it connects. If the connection succeeds, it runs the
prepared command, appends the node's lines to the result and closes the node. When the
group's sort is active, the merged lines are stably sorted by a key taken from each line.
Every step is reported to an optional tracing callback.

The model covers these parts:

- `conn.py`: the value classes, `Node`, `NodeGroup` and `Connection`.
- `logconn.py`:
  - the SSH and database hooks (the `cd` prefix, the row renderer, the database error rule);
  - the sort-key extraction of a file group;
  - the rules `parse_xml_config` applies to field specs, `<sort>`, `<msg-column>` and missing
    configuration;
  - the shell commands built by `get_file_part` and `search_extended`.

Modules, one per file:

- `Wrappers`, `Errors` (`wrappers.dfy`): `Option`, `Result`, and the faults that end an
  operation (a Python exception).
- `Text` (`text.dfy`): Python's `str.replace`, `split`, `join`, `strip`, `str(int)`,
  `int(str)` and code-point string order, with their laws.
- `Sorting` (`sorting.dfy`): Python's stable `sorted(..., key=...)`. It is an insertion sort
  proved sorted, a permutation and stable, and it is the only stable sort.
- `Topology` (`topology.dfy`): `SortPattern`, `ColumnPattern`, `Patterns`, `OutField`, `Source`.
- `Tracing` (`tracing.dfy`): the tracing callback as a `Tracer` object that records each
  `(text, is_error)` call, and the message formats.
- `Backends` (`backends.dfy`): the SSH and database connections (`ConnABC`). Each is an
  object with a session flag and a log of the calls made on it. The server's answers are
  arbitrary.
- `Nodes` (`nodes.dfy`): `Node` with `connect`, `exec_cmd`, `prepare_search_cmd`, `search`,
  `close` and the two node kinds' hooks.
- `Groups` (`groups.dfy`): `NodeGroup` (file groups included) and the fan-out over its nodes.
- `Connections` (`connection.dfy`): `Connection`, with group lookup, delegation by Python
  index, `get_file_part` and `search_extended`.
- `Config` (`config.dfy`): the configuration rules of `parse_xml_config`.

A node's behaviour is fixed by its backend:

- whether the server accepts the connection;
- what the server answers to each command;
- whether closing the session succeeds or raises.

Every property about a node, a group or a connection holds for all such servers.

The code and its documentation disagree in three places. The model follows the code:

- A `<sort>` element without an `active` attribute turns sorting ON (`e.get('active', '1')`).
  The comment right above it says the default is off.
- A node that fails to connect makes `connect` return nothing rather than `False`, because the
  `return` sits in the `else` clause.
- A file group sorts whenever its sort pattern is active, even when no sort expression is
  given. In that case the key is the whole line. The guard `n_active_nodes > 0` is always
  true, because the counter starts at 1.

## Model

| member | source | states |
|---|---|---|
| Text.ReplaceIsJoinOfSplit | conn.py:268-269 | `str.replace` (the operation `prepare_search_cmd` applies) is splitting on the token and joining with the value |
| Text.ReplaceAbsent | conn.py:268-269 | replacing a token that does not occur returns the text unchanged |
| Text.ReplaceBySelf | conn.py:268-269 | replacing a token by itself returns the text unchanged |
| Text.ReplaceSkips | conn.py:268-269 | a prefix that lacks the token's first character is copied unchanged, and the rest is replaced as before |
| Text.JoinSplit | logconn.py:348-349 | joining the pieces of a split with the separator gives back the text |
| Text.SplitJoin | logconn.py:348-349 | splitting a join on a character the pieces lack gives back the pieces |
| Text.SplitPiecesLackSeparator | logconn.py:348-349 | no piece of a split on a character contains that character |
| Text.StripIsInfix | logconn.py:350 | `strip()` returns a contiguous part of its input, and only characters `str.isspace()` accepts are cut, on either side |
| Text.StripLeadingSpace | logconn.py:350 | a whitespace character in front of a text does not change its `strip()` |
| Text.JoinCommaSpace | logconn.py:349 | joining entries with `, ` is joining with `,` the first entry and the others each preceded by a space |
| Text.NatToStringRoundTrip | logconn.py:403-404 | the decimal digits `%d` writes for a natural number read back as that number |
| Text.ParseIntOfIntToString | logconn.py:371-377 | `int()` reads back what `str()` writes, for every integer |
| Text.LexLeTotal | conn.py:432 | the string order `sorted` compares keys with is total |
| Text.LexLeTransitive | conn.py:432 | that order is transitive |
| Text.LexLeAntisymmetric | conn.py:432 | that order is antisymmetric |
| Text.LexLeCommonPrefix | conn.py:432 | two strings with a common prefix compare as their rests do |
| Sorting.SortBy | conn.py:431-432 | `sorted(lines, key=...)`: same length, ordered by key, the same multiset of lines |
| Sorting.SortByIsStable | conn.py:431-432 | lines with equal keys keep their relative order |
| Sorting.StableSortIsUnique | conn.py:431-432 | two sorted arrangements that keep every key's lines in the same order are equal |
| Sorting.AnyStableSortIsSortBy | conn.py:431-432 | any sorted, order-keeping rearrangement of the lines is the model's sort |
| Tracing.Tracer.Trace | conn.py:32 | a tracing call appends exactly one `(text, is_error)` entry and changes nothing else |
| Tracing.OperationCompletedReportsCount | conn.py:404-405 | the completion message carries the number of lines found |
| Backends.ExecReply | logconn.py:70-197 | an SSH command (`exec_cmd` at lines 70-78) raises exactly when there is no session or the server fails, and otherwise returns the stdout lines; a database statement (`exec_cmd` at lines 191-197) never raises, returns None exactly when there is no session or the statement fails, and otherwise returns the fetched rows |
| Backends.Backend.Connect | conn.py:137-144 | the backend opens a session exactly when the server accepts, and records the call |
| Backends.Backend.Exec | conn.py:146-154 | an exec records the command, leaves the session as it was, and answers as ExecReply says |
| Backends.Backend.Close | logconn.py:199-201 | a close records the call and reports the server's outcome; a close that succeeds ends the session, and one that raises leaves the session open |
| Nodes.SearchCommandWithoutTokens | conn.py:264-271 | a template without the three placeholders is the search command itself |
| Nodes.SearchCommandCascades | conn.py:264-271 | the replacements run in turn, so a search text that is itself `{{search_date}}` is replaced by the date |
| Nodes.SearchCommandFillsSlots | conn.py:264-271 | in a template with one `{{search_str}}` slot and one `{{source_name}}` slot, the command is the template with the search text and the file mask put in those slots, all else unchanged |
| Nodes.SearchCommandGrepExample | conn.py:264-271 | `grep '{{search_str}}' {{source_name}}.log` with source `app` and text `ERROR` gives `grep 'ERROR' app.log` |
| Nodes.ShellCommandRunsInRemoteDir | logconn.py:115-123 | an SSH node's command is `cd <remote_dir>` on its own line, followed by exactly the requested command |
| Nodes.RenderRowsShape | logconn.py:229-241 | the renderer fails exactly when some row has more columns than there are fields; otherwise it gives one string per row, in row order, each ending in the dashed separator |
| Nodes.RenderRowsFits | logconn.py:231-240 | rendering succeeds exactly when no row has more columns than there are fields |
| Nodes.RenderRowsPointwise | logconn.py:231-240 | when every row fits, rendering yields one line per row and line `k` is row `k`'s columns followed by the separator |
| Nodes.Node.PrepareRows | logconn.py:231-240 | the loop over the rows appends each row's line in order and yields exactly the rendering of all rows, or nothing at the first row that outgrows the fields |
| Nodes.RenderColsLabels | logconn.py:234-239 | column `i` of a row is rendered with field `i`, as `name:'value' ` or, for an XML field, as the name and the indented value on their own lines |
| Nodes.RenderRowsExample | logconn.py:229-241 | a row `2024-01-01`, `ERR1` under fields `date`, `msg` renders as `date:'2024-01-01' msg:'ERR1' ` and the separator |
| Nodes.FailedStatementYieldsNoRows | logconn.py:191-231 | a statement the database rejects gives None, and None renders as no lines |
| Nodes.Node.constructor | conn.py:168-180 | a new node stores its parameters and is not connected |
| Nodes.Node.Connect | conn.py:189-210 | `connected` becomes whether the server accepts; the result is `True` on success and nothing on failure; exactly one trace, `Connecting to '<node>' OK` (not an error) or `... FAILED, [args]` (an error) |
| Nodes.Node.PrepareRowStr | logconn.py:233-239 | a row's text is its columns rendered in order, or an index error when the row has more columns than fields |
| Nodes.Node.PrepareOutStr | logconn.py:229-241 | shell output is passed through unchanged, as the base class does at conn.py:222-230; database rows are rendered by the renderer; None or no rows give no lines |
| Nodes.Node.ExecCmd | conn.py:232-252 | without a backend: no lines and no trace. Otherwise: one `Execute command` trace, one exec of the prepared command, and its normalised output, or no lines when any step raises |
| Nodes.Node.PrepareSearchCmd | conn.py:254-271 | the loop over the three (token, value) pairs yields the source template with each placeholder replaced in turn |
| Nodes.Node.Search | conn.py:273-292 | a search runs the prepared search command through `exec_cmd` and returns its lines |
| Nodes.Node.Close | conn.py:294-302 | only a connected node with a backend closes it; the close's exception, if any, is returned and nothing is traced; otherwise `Connection to '<node>' was closed` is traced; `connected` is left as it is |
| Groups.SourcesNamed | conn.py:367-375 | the sources with the given name, in declaration order; empty exactly when no source has it |
| Groups.FanOutAppend | conn.py:398-403 | the lines of a node list are the lines of its first part followed by those of the rest |
| Groups.FanOutIsConnectingOutputs | conn.py:398-403 | the group's lines are those of the nodes that connect, in node order, and a node that fails to connect contributes nothing |
| Groups.AllFailedGivesNothing | conn.py:398-403 | when no node connects, the result is empty |
| Groups.TwoNodeScenario | conn.py:398-405 | a connecting node with lines `l1`, `l3` that closes cleanly, before a node that fails to connect, gives `l1`, `l3`; the trace has four entries and ends with the failed connect, flagged as an error |
| Groups.ExecRound | conn.py:399-403 | one round of the node loop: connect, and only when connected exec then close; the node's contribution, the close's exception, the trace and the backend calls |
| Groups.SearchRound | conn.py:425-429 | the same round for a search, with the same contribution, exception, trace and calls |
| Groups.SortSwapsTwo | conn.py:431-432 | two lines whose keys are out of order come out swapped |
| Groups.FirstFailedClose | conn.py:398-403 | where the node loop ends early: the first node that connects and whose close raises, or nothing when every close succeeds |
| Groups.FirstFailedCloseIs | conn.py:398-403 | the loop ends at node `k` when `k`'s close raises and no earlier close did |
| Groups.LaterDateFirst | conn.py:432 | in the string order `sorted` uses, the date 2024-02-01 does not come before 2024-01-01 |
| Groups.TimestampsOrder | logconn.py:157 | the documented example's time stamp `2018-11-02 15:26:13,349` does not come before an earlier one |
| Groups.DocLinesOrder | logconn.py:157 | as whole lines, the documented example's line comes before a line with an earlier time stamp, so sorting by whole lines would be wrong |
| Groups.NodeGroup.constructor | conn.py:314-335 | given nodes that trace through the group's tracer, the group is valid and may change exactly its nodes, their backends and the tracer; it stores its parts; as the log group's constructor does at logconn.py:144-153, the sort expression is set only when a sort pattern with an expression exists; sorting is active exactly when a sort pattern exists and is active |
| Groups.NodeGroup.NodeNames | conn.py:337-343 | the node names, in node order |
| Groups.NodeGroup.SourceItems | conn.py:359-365 | the (name, file mask) pair of each source, in order |
| Groups.NodeGroup.GetNode | conn.py:345-357 | nothing exactly when no node has the name; otherwise the first node with that name |
| Groups.NodeGroup.GetSource | conn.py:367-375 | an error exactly when no source has the name; otherwise the first source with that name |
| Groups.NodeGroup.ExecCmd | conn.py:386-406 | an unknown source fails before any node is contacted; a close that raises ends the loop with that exception, the lines gathered so far are lost and the trace stops after that node's round; otherwise the result is the connected nodes' lines in node order, and the trace is every node's round followed by the line count |
| Groups.NodeGroup.Search | conn.py:408-436 | the search is traced first, then the source is looked up; a close that raises ends the loop with that exception; otherwise the connected nodes' search lines are concatenated, sorted when sorting is active, and the count of lines is traced |
| Groups.NodeGroup.SearchOrder | conn.py:428-432 | a search succeeds exactly when no close raises; then, with sorting off, a search keeps node order; with it on, the lines are ordered by key, are a permutation of the concatenation, and keep the concatenation's order among equal keys |
| Groups.NodeGroup.SearchIsAnyStableSort | conn.py:431-432 | with sorting on and no close raising, a search returns any sorted, order-keeping arrangement of the nodes' lines; otherwise the first close's exception |
| Groups.NodeGroup.DateSortScenario | conn.py:424-432 | a line dated 2024-02-01 from the first node and one dated 2024-01-01 from the second, both nodes closing cleanly, come out with the earlier date first |
| Groups.NodeGroup.CloseFailureAborts | conn.py:398-403 | when node `k` is the first whose close raises, both a command and a search fail with that exception, and the command's trace is the rounds of nodes `0..k` with no line count |
| Groups.NodeGroup.CloseFailureScenario | conn.py:398-403 | a first node whose database close raises `ORA-03113` makes the command fail with that error; its trace is the connect and command messages, with no close message and nothing from the second node |
| Groups.NodeGroup.SortKeyIsTimestamp | logconn.py:155-168 | with a pattern whose group 1 is the time stamp, the documented line's key is `2018-11-02 15:26:13,349`, a line the pattern does not match is its own key, and two lines sort by time stamp although as whole lines they compare the other way |
| Connections.PyIndex | conn.py:510-523 | a Python list index is valid exactly when `-n <= i < n`, and a negative index counts from the end |
| Connections.NoQuoteInProgram | logconn.py:403-404 | the awk program of `get_file_part` contains no single quote |
| Connections.FilePartQuoting | logconn.py:403-404 | for a file name without a single quote, the command's quoted parts are exactly the awk program with the two line numbers and the file name |
| Connections.DateTestPresence | logconn.py:420-425 | the `-newermt "<date>"` test is present exactly when the date is not empty |
| Connections.UndatedCommand | logconn.py:420-425 | without a date, the command is the name test followed by the record filter |
| Connections.SearchExtendedDateTest | logconn.py:420-425 | a date inserts its `-newermt` test between the name test and the record filter, and changes nothing else |
| Connections.Connection.constructor | conn.py:448-458 | given valid node groups that trace through its tracer, a connection is valid and stores its file name, tracer and node groups |
| Connections.Connection.NodegroupNames | conn.py:480-486 | the group names, in order |
| Connections.Connection.GetNodegroup | conn.py:488-499 | nothing exactly when no group has the name; otherwise the LAST group with that name |
| Connections.Connection.ExecCmd | conn.py:501-511 | an index outside the list fails; otherwise it is the indexed group's `exec_cmd`, with the same result and trace |
| Connections.Connection.Search | conn.py:513-524 | an index outside the list fails; otherwise it is the indexed group's `search`, with the same result and trace |
| Connections.Connection.NegativeIndexSameGroup | conn.py:510-523 | the negative index `k - n` reaches the same group as `k`; the index `n` fails |
| Connections.Connection.GetFilePart | logconn.py:388-408 | a first line at or below 0 becomes 0; with no tracer the call fails; otherwise it traces the line range, then runs the awk command on the group and returns the group's result |
| Connections.Connection.SearchExtended | logconn.py:410-429 | a `%` in the date breaks the formatting before anything is traced; with no tracer the call fails; otherwise it traces the search, then runs the find command on the group |
| Config.ParseFields | logconn.py:346-352 | no fields for an absent or empty attribute; otherwise one field per comma-separated entry, each parsed as FieldOf says |
| Config.FieldSpecRoundTrip | logconn.py:349-351 | an entry `name` or `name:xml` reads back as that field |
| Config.FieldsRoundTrip | logconn.py:346-352 | a non-empty field list written as configuration files write it, `a, b:xml, ...` with a space after each comma, reads back as that list |
| Config.FieldOfSpaced | logconn.py:350 | a space before an entry does not change the field it reads as |
| Config.OnlyExactMarkerIsXml | logconn.py:349-350 | a field is XML only when the text after the `:` is exactly `xml` |
| Config.SpacedMarkerIsNotXml | logconn.py:349-350 | `msg : xml` is a plain field named `msg ` |
| Config.Flag | logconn.py:371-377 | `bool(int(text))` fails exactly when `int` rejects the text, and is otherwise whether the number is not zero |
| Config.DefaultFlags | logconn.py:366-376 | the defaults `"0"` and `"1"` read as off and on |
| Config.SortPatternOf | logconn.py:364-371 | without `<sort>`: inactive, with empty text; with `<sort>` and no `active` attribute: active, with the element's text; otherwise active exactly when the flag is a non-zero integer |
| Config.SortActiveFlag | logconn.py:364-371 | a decimal `active` attribute turns sorting on exactly when it is not zero |
| Config.RequiredAttr | logconn.py:273-283 | an attribute that is absent or empty is a missing attribute; otherwise it is its value |
| Config.ColumnPatternOf | logconn.py:374-377 | a column without a name is a missing attribute; `main` defaults to not main; the column keeps the element's name and text |
| Config.ColumnsOfPointwise | logconn.py:374-377 | when the columns read, column `k` is the reading of element `k` |
| Config.ParseColumns | logconn.py:374-377 | the loop over the column elements yields every column in order, or stops at the first bad element |
| Config.FirstErrorStops | logconn.py:374-377 | the error of the first bad element is the error of the whole list |
| Config.GroupsBeforeError | logconn.py:307-380 | the node groups read before the first error are all groups, and the next outcome is that error |
| Config.LoadGroups | logconn.py:307-386 | the loop over the node groups with its `except` clauses: it keeps every group before the first missing element or attribute, traces that one message and stops; without a tracer, or for a flag `int()` rejects, it fails |
| Config.LaterGroupsIgnored | logconn.py:307-386 | nothing after the first failing group changes the result |
| Config.MissingKeepsEarlierGroups | logconn.py:380-386 | with a tracer, a missing element keeps exactly the groups already read; without one, the load fails |

## Left out

- The transports are not modelled: the SSH client (`paramiko`) and the Oracle client. The
  connect outcome, the answer to each command and the close outcome are arbitrary
  parameters of a backend. Key
  files and passwords are stored, but they play no part.
- The regular expression engine and `yattag.indent` are not modelled. A group's sort
  expression is read through an arbitrary function giving capture group 1 of a
  start-anchored match, or nothing. `indent` is an arbitrary function on strings.
- Database columns are modelled as already converted with `str()`.
- XML parsing and tree walking are not modelled: `et.parse`, `find`, `iterchildren`,
  `getpath`. `Config` takes each element as a record of its attributes and text, and takes
  each node group as the outcome of reading its elements.
- The per-node reading of `parse_xml_config` is not modelled: the `<ssh-keys>` table, the
  key lookup, and the choice of node kind by group type. It is folded into each group's
  outcome.
- The fatal path of a `key-name` missing from the `<ssh-keys>` table is not modelled. The
  lookup at logconn.py:325 raises `KeyError`. That is neither of the two errors the loop
  catches at logconn.py:382-386, so it escapes `parse_xml_config` and the configuration
  fails to load. `Config.LoadGroups` has no outcome for it.
- The constructor's failure path in `Connection.__init__` is not modelled: trace
  `CONF_READ_ERR` and re-raise.
- The group building at logconn.py:354 calls `conn.Source` with three arguments, while the
  class takes four, so Python would raise there. The model builds `Source` with its four
  declared fields.
- Groups.NodeGroup.SortKey: the failures of `m.group(1)` at logconn.py:167 are not
  modelled. The model's match function gives a text or nothing, and on nothing the line is
  its own key. Python fails in two cases:
  - The pattern has no capturing group. Then `m.group(1)` raises `IndexError` for every
    line the pattern matches. `sorted` computes the key of every line, so the error escapes
    `search` at conn.py:432 even for a single line.
  - Group 1 does not take part in the match. Then `m.group(1)` is None, and `sorted` raises
    `TypeError` when it compares that key with another.
- The texts of Python exception messages are not modelled, except where a trace shows them
  (a failed connect).
- `Text.ParseInt` accepts optional whitespace, a sign and decimal digits. It leaves out the
  underscores and non-ASCII digits that Python's `int()` also accepts.
- `%`-formatting of `%d` in `get_file_part` is modelled for integer arguments only.
- Connections.Connection.SearchExtended: any `%` in the date is treated as a formatting
  error. In Python, a date containing `%%` would instead pass through as a single `%`.
- Groups.NodeGroup.ExecCmd: the contract states the result and the trace. Each node's
  backend calls are stated per round by `Groups.ExecRound`, not gathered over the whole group.
- Groups.NodeGroup.Search: the same holds, with `Groups.SearchRound` stating each round.
- The GUI (`loganalyzer.py`, `loganalyzer_gui.py`, `xmlstc.py`, `logxmlstc.py`,
  `msglist.py`) is not part of this model.
