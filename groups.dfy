/**
  A node group (conn.py `NodeGroup` with logconn.py's `SSHNodeGroup`): the fan-out of a
  command or a search over its nodes, in declared order, and the optional stable sort of
  the merged lines.
 */
module Groups {
  import opened Wrappers
  import opened Errors
  import opened Text
  import opened Sorting
  import opened Topology
  import opened Tracing
  import opened Backends
  import opened Nodes

  /** The sources named `name`, in their order. */
  function SourcesNamed(sources: seq<Source>, name: string): (r: seq<Source>)
    ensures forall k :: 0 <= k < |r| ==> r[k].name == name
    ensures r == [] <==> forall i :: 0 <= i < |sources| ==> sources[i].name != name
    ensures r != [] ==> exists i :: 0 <= i < |sources| && sources[i] == r[0] &&
                                    forall j :: 0 <= j < i ==> sources[j].name != name
  {
    if sources == [] then []
    else
      var rest := SourcesNamed(sources[1..], name);
      if sources[0].name == name then [sources[0]] + rest
      else
        assert rest != [] ==> exists i :: 1 <= i < |sources| && sources[i] == rest[0] &&
                                          forall j :: 0 <= j < i ==> sources[j].name != name by {
          if rest != [] {
            var i :| 0 <= i < |sources[1..]| && sources[1..][i] == rest[0] &&
                     forall j :: 0 <= j < i ==> sources[1..][j].name != name;
            assert forall j :: 1 <= j < i + 1 ==> sources[j].name != name by {
              forall j | 1 <= j < i + 1 ensures sources[j].name != name {
                assert sources[j] == sources[1..][j - 1];
              }
            }
          }
        }
        rest
  }

  // ---------------------------------------------------------------------------
  // What one round of the fan-out does to a node

  /** The lines node `n` contributes when `cmd` is fanned out for `source`: its output
      when it connects, nothing otherwise. */
  function NodeShare(n: Node, source: Source, cmd: string): seq<string> {
    if n.WillConnect() then n.Output(true, source, cmd) else []
  }

  /** The connected nodes' outputs, concatenated in node order. */
  function FanOut(nodes: seq<Node>, source: Source, cmd: string): seq<string> {
    if nodes == [] then []
    else FanOut(nodes[..|nodes| - 1], source, cmd) + NodeShare(nodes[|nodes| - 1], source, cmd)
  }

  /** The exception a round raises at node `n`: only a node that connected closes, and
      its close may raise. */
  function RoundFault(n: Node): Option<Fault> {
    if n.WillConnect() then n.CloseFault() else None
  }

  /** The messages one node traces in a round: the connect message and, when connected,
      the command and, unless the close raises, the close. */
  function NodeRoundTrace(n: Node, cmd: string): seq<TraceLine> {
    [n.ConnectTrace()] +
    (if n.WillConnect() then
       [TraceLine(InfoExecCmd(cmd), false)] +
       (if RoundFault(n).None? then [TraceLine(ConnClosed(n.args.nodeName), false)] else [])
     else [])
  }

  /** The messages of a round over `nodes`, in node order. */
  function FanOutTrace(nodes: seq<Node>, cmd: string): seq<TraceLine> {
    if nodes == [] then []
    else FanOutTrace(nodes[..|nodes| - 1], cmd) + NodeRoundTrace(nodes[|nodes| - 1], cmd)
  }

  /** The calls a round makes on a node's backend: connect, then, only when that
      succeeded, the command and the close. */
  function RoundCalls(n: Node, cmd: string): seq<Call> {
    if n.conn == null then []
    else if n.WillConnect() then [ConnectCall, ExecCall(PrepareInCmd(n.args, cmd)), CloseCall]
    else [ConnectCall]
  }

  /** A round in which no close raises runs to the end. */
  lemma NoFailedClose(nodes: seq<Node>)
    requires forall j :: 0 <= j < |nodes| ==> RoundFault(nodes[j]).None?
    ensures FirstFailedClose(nodes).None?
  {
  }

  /** The round ends at node `k` exactly when `k` is the first node whose close raises. */
  lemma FirstFailedCloseIs(nodes: seq<Node>, k: nat)
    requires k < |nodes| && RoundFault(nodes[k]).Some?
    requires forall j :: 0 <= j < k ==> RoundFault(nodes[j]).None?
    ensures FirstFailedClose(nodes) == Some(k)
  {
  }

  /** Node `n` has been through one round of `cmd`; its session is closed unless the
      close raised. */
  twostate predicate RoundDone(n: Node, cmd: string)
    reads n, n.conn
  {
    n.connected == n.WillConnect() &&
    (n.conn != null ==> n.conn.isOpen == RoundFault(n).Some? && n.conn.calls == old(n.conn.calls) + RoundCalls(n, cmd))
  }

  /** Where a round over `nodes` ends early: the first node whose close raises. */
  function FirstFailedClose(nodes: seq<Node>): (r: Option<nat>)
    ensures r.Some? ==> r.value < |nodes| && RoundFault(nodes[r.value]).Some? &&
                        forall j :: 0 <= j < r.value ==> RoundFault(nodes[j]).None?
    ensures r.None? ==> forall j :: 0 <= j < |nodes| ==> RoundFault(nodes[j]).None?
    decreases |nodes|
  {
    if nodes == [] then None
    else
      var init := nodes[..|nodes| - 1];
      var r0 := FirstFailedClose(init);
      assert forall j :: 0 <= j < |init| ==> init[j] == nodes[j];
      if r0.Some? then r0
      else if RoundFault(nodes[|nodes| - 1]).Some? then Some(|nodes| - 1)
      else None
  }

  /** A round whose first `i` nodes close cleanly ends at node `i` when its close raises,
      and otherwise has its first `i + 1` nodes close cleanly. */
  lemma FirstFailedCloseStep(nodes: seq<Node>, i: nat)
    requires i < |nodes| && FirstFailedClose(nodes[..i]).None?
    ensures RoundFault(nodes[i]).Some? ==> FirstFailedClose(nodes) == Some(i)
    ensures RoundFault(nodes[i]).None? ==> FirstFailedClose(nodes[..i + 1]).None?
  {
    assert forall j :: 0 <= j < i ==> nodes[..i][j] == nodes[j];
    assert forall j :: 0 <= j <= i ==> nodes[..i + 1][j] == nodes[j];
  }

  /** Fan-out distributes over a split of the node list. */
  lemma {:induction false} FanOutAppend(a: seq<Node>, b: seq<Node>, source: Source, cmd: string)
    ensures FanOut(a + b, source, cmd) == FanOut(a, source, cmd) + FanOut(b, source, cmd)
    decreases |b|
  {
    if b == [] {
      assert a + b == a;
    } else {
      var b', last := b[..|b| - 1], b[|b| - 1];
      assert (a + b)[..|a + b| - 1] == a + b' && (a + b)[|a + b| - 1] == last;
      FanOutAppend(a, b', source, cmd);
      assert FanOut(a + b, source, cmd) == FanOut(a + b', source, cmd) + NodeShare(last, source, cmd);
      assert FanOut(b, source, cmd) == FanOut(b', source, cmd) + NodeShare(last, source, cmd);
      AppendAssoc(FanOut(a, source, cmd), FanOut(b', source, cmd), NodeShare(last, source, cmd));
    }
  }

  /** A round over the first `i + 1` nodes is the round over the first `i` followed by
      node `i`'s turn. */
  lemma FanOutSnoc(nodes: seq<Node>, i: int, source: Source, cmd: string)
    requires 0 <= i < |nodes|
    ensures FanOut(nodes[..i + 1], source, cmd) == FanOut(nodes[..i], source, cmd) + NodeShare(nodes[i], source, cmd)
    ensures FanOutTrace(nodes[..i + 1], cmd) == FanOutTrace(nodes[..i], cmd) + NodeRoundTrace(nodes[i], cmd)
  {
    assert nodes[..i + 1][..i] == nodes[..i];
  }

  /** Regrouping appended traces. */
  lemma AppendAssoc<T>(a: seq<T>, b: seq<T>, c: seq<T>)
    ensures (a + b) + c == a + (b + c)
  {
  }

  /** The nodes of `nodes` that connect, in their order. */
  function Connecting(nodes: seq<Node>): seq<Node> {
    if nodes == [] then []
    else Connecting(nodes[..|nodes| - 1]) + (if nodes[|nodes| - 1].WillConnect() then [nodes[|nodes| - 1]] else [])
  }

  /** A round over the nodes returns exactly the outputs of the nodes that connect, in
      node order: nodes that fail add nothing. */
  lemma {:induction false} FanOutIsConnectingOutputs(nodes: seq<Node>, source: Source, cmd: string)
    ensures FanOut(nodes, source, cmd) == FanOut(Connecting(nodes), source, cmd)
    ensures forall k :: 0 <= k < |Connecting(nodes)| ==> Connecting(nodes)[k].WillConnect()
    decreases |nodes|
  {
    if nodes != [] {
      var init, last := nodes[..|nodes| - 1], nodes[|nodes| - 1];
      FanOutIsConnectingOutputs(init, source, cmd);
      var c := Connecting(init);
      if last.WillConnect() {
        assert Connecting(nodes) == c + [last];
        FanOutAppend(c, [last], source, cmd);
        assert [last][..0] == [];
        assert FanOut([last], source, cmd) == NodeShare(last, source, cmd);
      } else {
        assert Connecting(nodes) == c;
        assert FanOut(nodes, source, cmd) == FanOut(init, source, cmd) + [];
      }
    }
  }

  /** When no node of a group connects there are no lines. */
  lemma {:induction false} AllFailedGivesNothing(nodes: seq<Node>, source: Source, cmd: string)
    requires forall i :: 0 <= i < |nodes| ==> !nodes[i].WillConnect()
    ensures FanOut(nodes, source, cmd) == []
    decreases |nodes|
  {
    if nodes != [] {
      AllFailedGivesNothing(nodes[..|nodes| - 1], source, cmd);
    }
  }

  /** Two nodes, the first connecting with output ["l1", "l3"] and closing cleanly, and
      the second failing to connect:
      the lines are ["l1", "l3"] and the trace holds the first node's three messages and
      then the second node's FAILED message, flagged as an error. */
  lemma TwoNodeScenario(a: Node, b: Node, source: Source, cmd: string)
    requires a.WillConnect() && a.Output(true, source, cmd) == ["l1", "l3"] && a.CloseFault().None?
    requires !b.WillConnect()
    ensures FanOut([a, b], source, cmd) == ["l1", "l3"]
    ensures |FanOutTrace([a, b], cmd)| == 4
    ensures FanOutTrace([a, b], cmd)[3] == b.ConnectTrace() && b.ConnectTrace().isError
  {
    assert [a, b][..1] == [a] && [a][..0] == [];
    assert FanOut([a], source, cmd) == [] + NodeShare(a, source, cmd);
    assert FanOut([a, b], source, cmd) == FanOut([a], source, cmd) + [];
    assert FanOutTrace([a], cmd) == [] + NodeRoundTrace(a, cmd);
    assert |NodeRoundTrace(a, cmd)| == 3;
    assert NodeRoundTrace(b, cmd) == [b.ConnectTrace()];
  }

  /** One node's turn in a fan-out of `cmd`: connect, and only if that succeeded run the
      command and close. */
  method ExecRound(node: Node, source: Source, cmd: string)
    returns (isConnected: bool, out: seq<string>, fault: Option<Fault>)
    modifies node, node.conn, node.tracer
    ensures isConnected == node.WillConnect()
    ensures out == NodeShare(node, source, cmd) && fault == RoundFault(node)
    ensures node.tracer != null ==> node.tracer.lines == old(node.tracer.lines) + NodeRoundTrace(node, cmd)
    ensures RoundDone(node, cmd)
  {
    var r := node.Connect();
    isConnected := r == Some(true);
    out := [];
    fault := None;
    if isConnected {
      out := node.ExecCmd(source, cmd);
      fault := node.Close();
    }
  }

  /** One node's turn in a fan-out of a search: as `ExecRound`, the node building the
      search command itself. */
  method SearchRound(node: Node, source: Source, searchStr: string, searchDate: string, ghost cmd: string)
    returns (isConnected: bool, out: seq<string>, fault: Option<Fault>)
    requires cmd == SearchCommand(source, searchStr, searchDate)
    modifies node, node.conn, node.tracer
    ensures isConnected == node.WillConnect()
    ensures out == NodeShare(node, source, cmd) && fault == RoundFault(node)
    ensures node.tracer != null ==> node.tracer.lines == old(node.tracer.lines) + NodeRoundTrace(node, cmd)
    ensures RoundDone(node, cmd)
  {
    var r := node.Connect();
    isConnected := r == Some(true);
    out := [];
    fault := None;
    if isConnected {
      out := node.Search(source, searchStr, searchDate);
      fault := node.Close();
    }
  }

  /** "2024-02-01" does not come before "2024-01-01". */
  lemma LaterDateFirst()
    ensures !LexLe("2024-02-01", "2024-01-01")
  {
    LexLeCommonPrefix("2024-0", "2-01", "1-01");
    assert "2024-02-01" == "2024-0" + "2-01" && "2024-01-01" == "2024-0" + "1-01";
  }

  /** The time stamps and log lines of `sort_fun`'s documented example, written around
      their common prefixes. */
  const LaterStamp := "2018-11-0" + "2 15:26:13,349"
  const EarlierStamp := "2018-11-0" + "1 09:00:00,000"
  const LaterLine := "./server.log:1" + ("32649:" + LaterStamp + " DEBUG...")
  const EarlierLine := "./server.log:1" + ("7:" + EarlierStamp + " INFO...")

  /** The later time stamp does not come first. */
  lemma TimestampsOrder()
    ensures !LexLe(LaterStamp, EarlierStamp)
  {
    LexLeCommonPrefix("2018-11-0", "2 15:26:13,349", "1 09:00:00,000");
  }

  /** As whole lines, the line with the later time stamp comes first. */
  lemma DocLinesOrder()
    ensures LexLe(LaterLine, EarlierLine)
  {
    var a, b := "32649:" + LaterStamp + " DEBUG...", "7:" + EarlierStamp + " INFO...";
    LexLeCommonPrefix("./server.log:1", a, b);
    assert a[0] == '3' && b[0] == '7';
  }

  /** Two lines whose keys are out of order are swapped by the sort. */
  lemma SortSwapsTwo(x: string, y: string, key: string -> string)
    requires !LexLe(key(x), key(y))
    ensures SortBy([x, y], key) == [y, x]
  {
    assert [x, y][1..] == [y] && [y][1..] == [];
    assert SortBy([y], key) == Insert(y, [], key) == [y];
    assert SortBy([x, y], key) == Insert(x, [y], key);
    assert Insert(x, [], key) == [x];
  }

  // ---------------------------------------------------------------------------
  // The group

  /** The objects a fan-out over `nodes` may change: the nodes, their backends and the
      tracer. */
  ghost function Footprint(tracer: Tracer?, nodes: seq<Node>): (r: set<object>)
    ensures tracer != null ==> tracer in r
    ensures forall i :: 0 <= i < |nodes| ==> nodes[i] in r && (nodes[i].conn != null ==> nodes[i].conn in r)
  {
    (set i | 0 <= i < |nodes| :: nodes[i] as object) +
    (set i | 0 <= i < |nodes| && nodes[i].conn != null :: nodes[i].conn as object) +
    (if tracer != null then {tracer as object} else {})
  }

  class NodeGroup {
    const tracer: Tracer?
    const name: string
    const ngType: string
    const nodes: seq<Node>
    const sources: seq<Source>
    const patterns: Patterns
    /** The sort regex, when there is one. */
    const pSort: Option<string>
    const isSortActive: bool
    /** The regex engine: group 1 of a match of the pattern at the start of the line,
        None when it does not match. */
    const matchGroup1: (string, string) -> Option<string>
    /** Everything a fan-out may change: the nodes, their backends and the tracer. */
    ghost const repr: set<object>

    /** A group set up from its patterns: the sort regex is the sort pattern's text when
        there is a sort pattern with text, and sorting is on exactly when there is a sort
        pattern and it is active. */
    constructor (tracer: Tracer?, name: string, ngType: string, nodes: seq<Node>, sources: seq<Source>,
                 patterns: Patterns, matchGroup1: (string, string) -> Option<string>)
      requires forall i :: 0 <= i < |nodes| ==> nodes[i].tracer == tracer
      ensures Valid() && repr == Footprint(tracer, nodes)
      ensures this.tracer == tracer && this.name == name && this.ngType == ngType
      ensures this.nodes == nodes && this.sources == sources && this.patterns == patterns
      ensures this.matchGroup1 == matchGroup1
      ensures pSort == (if patterns.sort.Some? then patterns.sort.value.expr else None)
      ensures isSortActive == (patterns.sort.Some? && patterns.sort.value.isActive)
    {
      this.tracer := tracer;
      this.name := name;
      this.ngType := ngType;
      this.nodes := nodes;
      this.sources := sources;
      this.patterns := patterns;
      this.matchGroup1 := matchGroup1;
      this.repr := Footprint(tracer, nodes);
      var ptSort := patterns.sort;
      if ptSort.Some? {
        if ptSort.value.expr.Some? {
          pSort := ptSort.value.expr;
        } else {
          pSort := None;
        }
        isSortActive := ptSort.value.isActive;
      } else {
        pSort := None;
        isSortActive := false;
      }
    }

    /** The nodes trace through the group's tracer, and a fan-out may change the nodes,
        their backends and the tracer. */
    ghost predicate Valid() {
      (tracer != null ==> tracer in repr) &&
      (forall i :: 0 <= i < |nodes| ==> nodes[i] in repr && (nodes[i].conn != null ==> nodes[i].conn in repr)) &&
      (forall i :: 0 <= i < |nodes| ==> nodes[i].tracer == tracer)
    }

    function NodeNames(): (r: seq<string>)
      ensures |r| == |nodes| && forall i :: 0 <= i < |nodes| ==> r[i] == nodes[i].name
    {
      seq(|nodes|, i requires 0 <= i < |nodes| => nodes[i].name)
    }

    /** The display name and file mask (or table) of each source. */
    function SourceItems(): (r: seq<(string, string)>)
      ensures |r| == |sources| && forall i :: 0 <= i < |sources| ==> r[i] == (sources[i].name, sources[i].sourceName)
    {
      seq(|sources|, i requires 0 <= i < |sources| => (sources[i].name, sources[i].sourceName))
    }

    /** The first node called `name`, or null when there is none. */
    method GetNode(name: string) returns (r: Node?)
      ensures r == null <==> name !in NodeNames()
      ensures r != null ==> exists i :: 0 <= i < |nodes| && nodes[i] == r && r.name == name &&
                                        forall j :: 0 <= j < i ==> nodes[j].name != name
    {
      r := null;
      var i := 0;
      while i < |nodes|
        invariant 0 <= i <= |nodes|
        invariant forall j :: 0 <= j < i ==> nodes[j].name != name
      {
        if nodes[i].name == name {
          r := nodes[i];
          break;
        }
        i := i + 1;
      }
      if r == null {
        assert forall j :: 0 <= j < |nodes| ==> NodeNames()[j] != name;
      }
    }

    /** The first source called `sourceName`; looking up a name no source has is an
        error. */
    function GetSource(sourceName: string): (r: Result<Source, Fault>)
      ensures r.Err? <==> forall i :: 0 <= i < |sources| ==> sources[i].name != sourceName
      ensures r.Err? ==> r.error == NoSuchSource(sourceName)
      ensures r.Ok? ==> r.value.name == sourceName &&
                        exists i :: 0 <= i < |sources| && sources[i] == r.value &&
                                    forall j :: 0 <= j < i ==> sources[j].name != sourceName
    {
      var srcLst := SourcesNamed(sources, sourceName);
      if srcLst == [] then Err(NoSuchSource(sourceName)) else Ok(srcLst[0])
    }

    /** The sort key of a line: group 1 of the sort regex matched at the start of the
        line, or the whole line when there is no regex or it does not match. */
    function SortKey(line: string): string {
      if pSort.Some? then matchGroup1(pSort.value, line).GetOr(line) else line
    }

    function KeyFun(): string -> string {
      line => SortKey(line)
    }

    /** What `exec_cmd` returns: the connected nodes' outputs in node order, the
        lookup error when no source has that name, or the exception of the first close
        that raises. */
    function ExecResult(sourceName: string, cmd: string): Result<seq<string>, Fault> {
      match GetSource(sourceName)
      case Err(e) => Err(e)
      case Ok(source) =>
        match FirstFailedClose(nodes)
        case Some(k) => Err(RoundFault(nodes[k]).value)
        case None => Ok(FanOut(nodes, source, cmd))
    }

    /** What `exec_cmd` traces: each node's round, then the line count; or, when a close
        raises, the rounds up to and including that node's. */
    function ExecTrace(sourceName: string, cmd: string): seq<TraceLine> {
      match GetSource(sourceName)
      case Err(_) => []
      case Ok(source) =>
        match FirstFailedClose(nodes)
        case Some(k) => FanOutTrace(nodes[..k + 1], cmd)
        case None => FanOutTrace(nodes, cmd) + [TraceLine(InfoOperationCompleted(|FanOut(nodes, source, cmd)|), false)]
    }

    /** What `search` returns: the connected nodes' search outputs in node order, stably
        sorted by key when sorting is on; or an error as for `exec_cmd`. */
    function SearchResult(sourceName: string, searchStr: string, searchDate: string): Result<seq<string>, Fault> {
      match GetSource(sourceName)
      case Err(e) => Err(e)
      case Ok(source) =>
        match FirstFailedClose(nodes)
        case Some(k) => Err(RoundFault(nodes[k]).value)
        case None =>
          var lines := FanOut(nodes, source, SearchCommand(source, searchStr, searchDate));
          Ok(if isSortActive then SortBy(lines, KeyFun()) else lines)
    }

    /** What `search` traces: the search, then as `exec_cmd` traces. */
    function SearchTrace(sourceName: string, searchStr: string, searchDate: string): seq<TraceLine> {
      [TraceLine(InfoSearch(searchStr, sourceName, searchDate), false)] +
      match GetSource(sourceName)
      case Err(_) => []
      case Ok(source) =>
        var cmd := SearchCommand(source, searchStr, searchDate);
        match FirstFailedClose(nodes)
        case Some(k) => FanOutTrace(nodes[..k + 1], cmd)
        case None => FanOutTrace(nodes, cmd) + [TraceLine(InfoOperationCompleted(|FanOut(nodes, source, cmd)|), false)]
    }

    /** Runs `cmd` on every node in turn: connect, and only if that succeeded run and
        close. A node that fails to connect contributes nothing and the loop goes on; a
        close that raises ends the loop with its exception. */
    method ExecCmd(sourceName: string, cmd: string) returns (r: Result<seq<string>, Fault>)
      requires Valid()
      modifies repr
      ensures r == ExecResult(sourceName, cmd)
      ensures tracer != null ==> tracer.lines == old(tracer.lines) + ExecTrace(sourceName, cmd)
    {
      var src := GetSource(sourceName);
      if src.Err? {
        return Err(src.error);
      }
      var source := src.value;
      var resLst: seq<string> := [];
      var nActiveNodes := 1;
      for i := 0 to |nodes|
        invariant FirstFailedClose(nodes[..i]).None?
        invariant resLst == FanOut(nodes[..i], source, cmd)
        invariant tracer != null ==> tracer.lines == old(tracer.lines) + FanOutTrace(nodes[..i], cmd)
        invariant nActiveNodes >= 1
      {
        FanOutSnoc(nodes, i, source, cmd);
        FirstFailedCloseStep(nodes, i);
        assert nodes[i].tracer == tracer;
        var isConnected, out, fault := ExecRound(nodes[i], source, cmd);
        if tracer != null {
          AppendAssoc(old(tracer.lines), FanOutTrace(nodes[..i], cmd), NodeRoundTrace(nodes[i], cmd));
        }
        if fault.Some? {
          return Err(fault.value);
        }
        if isConnected {
          nActiveNodes := nActiveNodes + 1;
        }
        resLst := resLst + out;
      }
      assert nodes[..|nodes|] == nodes;
      if tracer != null {
        tracer.Trace(InfoOperationCompleted(|resLst|), false);
        AppendAssoc(old(tracer.lines), FanOutTrace(nodes, cmd), [TraceLine(InfoOperationCompleted(|resLst|), false)]);
      }
      r := Ok(resLst);
    }

    /** Searches every node in turn as `ExecCmd` runs a command; the merged lines are
        stably sorted by key when sorting is on. */
    method Search(sourceName: string, searchStr: string, searchDate: string) returns (r: Result<seq<string>, Fault>)
      requires Valid()
      modifies repr
      ensures r == SearchResult(sourceName, searchStr, searchDate)
      ensures tracer != null ==> tracer.lines == old(tracer.lines) + SearchTrace(sourceName, searchStr, searchDate)
    {
      ghost var head := [TraceLine(InfoSearch(searchStr, sourceName, searchDate), false)];
      if tracer != null {
        tracer.Trace(InfoSearch(searchStr, sourceName, searchDate), false);
      }
      var src := GetSource(sourceName);
      if src.Err? {
        return Err(src.error);
      }
      var source := src.value;
      ghost var cmd := SearchCommand(source, searchStr, searchDate);
      ghost var traced := if tracer != null then tracer.lines else [];
      var resLst: seq<string> := [];
      var nActiveNodes := 1;
      for i := 0 to |nodes|
        invariant FirstFailedClose(nodes[..i]).None?
        invariant resLst == FanOut(nodes[..i], source, cmd)
        invariant tracer != null ==> tracer.lines == traced + FanOutTrace(nodes[..i], cmd)
        invariant nActiveNodes >= 1
      {
        FanOutSnoc(nodes, i, source, cmd);
        FirstFailedCloseStep(nodes, i);
        assert nodes[i].tracer == tracer;
        var isConnected, out, fault := SearchRound(nodes[i], source, searchStr, searchDate, cmd);
        if tracer != null {
          AppendAssoc(traced, FanOutTrace(nodes[..i], cmd), NodeRoundTrace(nodes[i], cmd));
        }
        if fault.Some? {
          assert SearchTrace(sourceName, searchStr, searchDate) == head + FanOutTrace(nodes[..i + 1], cmd);
          if tracer != null {
            AppendAssoc(old(tracer.lines), head, FanOutTrace(nodes[..i + 1], cmd));
          }
          return Err(fault.value);
        }
        if isConnected {
          nActiveNodes := nActiveNodes + 1;
        }
        resLst := resLst + out;
      }
      assert nodes[..|nodes|] == nodes;
      if isSortActive && nActiveNodes > 0 {
        resLst := SortBy(resLst, KeyFun());
      }
      ghost var done := TraceLine(InfoOperationCompleted(|FanOut(nodes, source, cmd)|), false);
      assert SearchTrace(sourceName, searchStr, searchDate) == head + (FanOutTrace(nodes, cmd) + [done]);
      if tracer != null {
        tracer.Trace(InfoOperationCompleted(|resLst|), false);
        assert tracer.lines == (traced + FanOutTrace(nodes, cmd)) + [done];
        AppendAssoc(old(tracer.lines), head, FanOutTrace(nodes, cmd));
        AppendAssoc(old(tracer.lines) + head, FanOutTrace(nodes, cmd), [done]);
        AppendAssoc(head, FanOutTrace(nodes, cmd), [done]);
        AppendAssoc(old(tracer.lines), head, FanOutTrace(nodes, cmd) + [done]);
      }
      r := Ok(resLst);
    }

    /** The order of a search's lines: with sorting off, the nodes' lines as they came;
        with sorting on, those lines sorted by key, a permutation of them, and for every
        key the lines of that key in the order they came. */
    lemma SearchOrder(sourceName: string, searchStr: string, searchDate: string)
      requires GetSource(sourceName).Ok?
      ensures var source := GetSource(sourceName).value;
              var lines := FanOut(nodes, source, SearchCommand(source, searchStr, searchDate));
              var r := SearchResult(sourceName, searchStr, searchDate);
              (r.Ok? <==> FirstFailedClose(nodes).None?) &&
              (r.Ok? ==>
                 (!isSortActive ==> r.value == lines) &&
                 (isSortActive ==>
                    SortedBy(r.value, KeyFun()) && multiset(r.value) == multiset(lines) &&
                    forall k :: WithKey(r.value, KeyFun(), k) == WithKey(lines, KeyFun(), k)))
    {
      var source := GetSource(sourceName).value;
      var lines := FanOut(nodes, source, SearchCommand(source, searchStr, searchDate));
      forall k ensures WithKey(SortBy(lines, KeyFun()), KeyFun(), k) == WithKey(lines, KeyFun(), k) {
        SortByIsStable(lines, KeyFun(), k);
      }
    }

    /** With sorting on, a search returns what any stable sort by key of the nodes' lines
        returns. */
    lemma SearchIsAnyStableSort(sourceName: string, searchStr: string, searchDate: string, s: seq<string>)
      requires GetSource(sourceName).Ok? && isSortActive
      requires var source := GetSource(sourceName).value;
               var lines := FanOut(nodes, source, SearchCommand(source, searchStr, searchDate));
               SortedBy(s, KeyFun()) && forall k :: WithKey(s, KeyFun(), k) == WithKey(lines, KeyFun(), k)
      ensures SearchResult(sourceName, searchStr, searchDate) ==
                (if FirstFailedClose(nodes).None? then Ok(s) else Err(RoundFault(nodes[FirstFailedClose(nodes).value]).value))
    {
      var source := GetSource(sourceName).value;
      AnyStableSortIsSortBy(FanOut(nodes, source, SearchCommand(source, searchStr, searchDate)), s, KeyFun());
    }

    /** Two nodes whose lines start with dates, "2024-02-01 b" from the first and
        "2024-01-01 a" from the second, with a sort pattern whose first group is the
        date: the search returns the earlier date first. */
    lemma DateSortScenario(sourceName: string, searchStr: string, searchDate: string, a: Node, b: Node)
      requires GetSource(sourceName).Ok? && nodes == [a, b]
      requires isSortActive && pSort.Some?
      requires matchGroup1(pSort.value, "2024-02-01 b") == Some("2024-02-01")
      requires matchGroup1(pSort.value, "2024-01-01 a") == Some("2024-01-01")
      requires var source := GetSource(sourceName).value;
               var cmd := SearchCommand(source, searchStr, searchDate);
               a.WillConnect() && a.Output(true, source, cmd) == ["2024-02-01 b"] && a.CloseFault().None? &&
               b.WillConnect() && b.Output(true, source, cmd) == ["2024-01-01 a"] && b.CloseFault().None?
      ensures SearchResult(sourceName, searchStr, searchDate) == Ok(["2024-01-01 a", "2024-02-01 b"])
    {
      var source := GetSource(sourceName).value;
      var cmd := SearchCommand(source, searchStr, searchDate);
      NoFailedClose(nodes);
      assert [a, b][..1] == [a] && [a][..0] == [];
      assert FanOut([a], source, cmd) == [] + ["2024-02-01 b"];
      assert FanOut(nodes, source, cmd) == ["2024-02-01 b"] + ["2024-01-01 a"];
      LaterDateFirst();
      SortSwapsTwo("2024-02-01 b", "2024-01-01 a", KeyFun());
    }

    /** A close that raises ends a fan-out: a command and a search both fail with that
        exception, whatever lines the earlier nodes gave, and the trace stops after that
        node's round, the later nodes never being contacted. */
    lemma CloseFailureAborts(sourceName: string, cmd: string, searchStr: string, searchDate: string, k: nat)
      requires GetSource(sourceName).Ok?
      requires k < |nodes| && RoundFault(nodes[k]).Some?
      requires forall j :: 0 <= j < k ==> RoundFault(nodes[j]).None?
      ensures ExecResult(sourceName, cmd) == Err(RoundFault(nodes[k]).value)
      ensures SearchResult(sourceName, searchStr, searchDate) == Err(RoundFault(nodes[k]).value)
      ensures ExecTrace(sourceName, cmd) == FanOutTrace(nodes[..k + 1], cmd)
    {
      FirstFailedCloseIs(nodes, k);
    }

    /** Two connecting nodes, the first one's close raising with ["ORA-03113"]: the command
        fails with that exception, and the trace holds the first node's connect and command
        messages and nothing of the second node. */
    lemma CloseFailureScenario(sourceName: string, cmd: string, a: Node, b: Node)
      requires GetSource(sourceName).Ok? && nodes == [a, b]
      requires a.WillConnect() && a.conn.closeOutcome == CloseRefused(["ORA-03113"])
      ensures ExecResult(sourceName, cmd) == Err(CloseFailed(["ORA-03113"]))
      ensures ExecTrace(sourceName, cmd) == [a.ConnectTrace(), TraceLine(InfoExecCmd(cmd), false)]
    {
      FirstFailedCloseIs(nodes, 0);
      assert nodes[..1] == [a] && [a][..0] == [];
      assert FanOutTrace([a], cmd) == [] + NodeRoundTrace(a, cmd);
    }

    /** The example of `sort_fun`'s documentation: with a pattern whose group 1 is the
        time stamp, the key of `./server.log:132649:2018-11-02 15:26:13,349 DEBUG...` is
        its time stamp, a line without a match is its own key, and a line from an earlier
        time sorts first although the whole lines compare the other way. */
    lemma SortKeyIsTimestamp(z: string)
      requires pSort.Some?
      requires matchGroup1(pSort.value, LaterLine) == Some(LaterStamp)
      requires matchGroup1(pSort.value, EarlierLine) == Some(EarlierStamp)
      requires matchGroup1(pSort.value, z) == None
      ensures SortKey(LaterLine) == LaterStamp && SortKey(z) == z
      ensures LexLe(LaterLine, EarlierLine) && SortBy([LaterLine, EarlierLine], KeyFun()) == [EarlierLine, LaterLine]
    {
      TimestampsOrder();
      SortSwapsTwo(LaterLine, EarlierLine, KeyFun());
      DocLinesOrder();
    }
  }
}
