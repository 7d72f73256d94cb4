/**
  The root object (conn.py `Connection` with logconn.py's `LogConnection`): the node
  groups read from the configuration, lookup of a group by name, delegation of commands
  and searches to the group picked by index, and the two canned shell commands of the
  log viewer (a line range of one file, and the multi-line record search).
 */
module Connections {
  import opened Wrappers
  import opened Errors
  import opened Text
  import opened Tracing
  import opened Groups

  /** Python's rule for `xs[i]` on a list of length `n`: a negative index counts from the
      end, and any other index out of range raises IndexError. */
  function PyIndex(i: int, n: nat): (r: Option<nat>)
    ensures r.Some? <==> 0 <= i + n && i < n
    ensures r.Some? ==> r.value < n && r.value % n == i % n
  {
    if 0 <= i < n then Some(i) else if 0 <= i + n && i < 0 then Some(i + n) else None
  }

  // ---------------------------------------------------------------------------
  // get_file_part: lines `numFrom` to `numTo` of one file

  /** The awk program selecting the line range and prefixing each line with the file
      name and its line number. */
  function FilePartProgram(numFrom: int, numTo: int): string {
    "(NR >= " + IntToString(numFrom) + ") && (NR <= " + IntToString(numTo) +
    ") {print FILENAME \":\" FNR \":\" $0}"
  }

  /** The shell command `get_file_part` runs: the program and the file name, each in
      single quotes. */
  function FilePartCommand(numFrom: int, numTo: int, fileName: string): string {
    "awk '" + FilePartProgram(numFrom, numTo) + "' '" + fileName + "' "
  }

  lemma NoQuoteInNumber(i: int)
    ensures '\'' !in IntToString(i)
  {
    var d := NatToString(if i < 0 then -i else i);
    assert forall k :: 0 <= k < |d| ==> IsDigit(d[k]);
    if i < 0 {
      assert IntToString(i) == "-" + d;
    }
  }

  lemma NoQuoteInProgram(numFrom: int, numTo: int)
    ensures '\'' !in FilePartProgram(numFrom, numTo)
  {
    NoQuoteInNumber(numFrom);
    NoQuoteInNumber(numTo);
    NoQuoteInProgramText();
  }

  lemma NoQuoteInProgramText()
    ensures '\'' !in "(NR >= " && '\'' !in ") && (NR <= " && '\'' !in ") {print FILENAME \":\" FNR \":\" $0}"
  {
  }

  /** Five quote-free words joined by single quotes split back into those words. */
  lemma SplitQuoted(a: string, b: string, c: string, d: string, e: string)
    requires '\'' !in a && '\'' !in b && '\'' !in c && '\'' !in d && '\'' !in e
    ensures Split(a + "'" + b + "'" + c + "'" + d + "'" + e, "'") == [a, b, c, d, e]
  {
    RegroupQuoted(a, b, c, d, e);
    SplitQuotedNested(a, b, c, d, e);
  }

  lemma RegroupQuoted(a: string, b: string, c: string, d: string, e: string)
    ensures a + "'" + b + "'" + c + "'" + d + "'" + e == a + "'" + (b + "'" + (c + "'" + (d + "'" + e)))
  {
  }

  lemma {:induction false} SplitQuotedNested(a: string, b: string, c: string, d: string, e: string)
    requires '\'' !in a && '\'' !in b && '\'' !in c && '\'' !in d && '\'' !in e
    ensures Split(a + "'" + (b + "'" + (c + "'" + (d + "'" + e))), "'") == [a, b, c, d, e]
  {
    var q := '\'';
    assert "'" == [q];
    var t4 := d + [q] + e;
    var t3 := c + [q] + t4;
    var t2 := b + [q] + t3;
    NoCharNoContains(e, q);
    SplitAbsent(e, [q]);
    SplitAtFirst(d, q, e);
    assert Split(t4, [q]) == [d, e];
    SplitAtFirst(c, q, t4);
    assert Split(t3, [q]) == [c, d, e];
    SplitAtFirst(b, q, t3);
    assert Split(t2, [q]) == [b, c, d, e];
    SplitAtFirst(a, q, t2);
  }

  /** The awk program and the file name reach the shell as exactly two single-quoted
      words, provided the file name has no single quote of its own. */
  lemma FilePartQuoting(numFrom: int, numTo: int, fileName: string)
    requires '\'' !in fileName
    ensures Split(FilePartCommand(numFrom, numTo, fileName), "'") ==
            ["awk ", FilePartProgram(numFrom, numTo), " ", fileName, " "]
  {
    var prog := FilePartProgram(numFrom, numTo);
    NoQuoteInProgram(numFrom, numTo);
    QuotedWords(prog, fileName);
    SplitQuoted("awk ", prog, " ", fileName, " ");
  }

  lemma QuotedWords(prog: string, fileName: string)
    ensures "awk '" + prog + "' '" + fileName + "' " == "awk " + "'" + prog + "'" + " " + "'" + fileName + "'" + " "
  {
    assert "awk '" == "awk " + "'";
    assert "' '" == "'" + " " + "'";
    assert "' " == "'" + " ";
  }

  // ---------------------------------------------------------------------------
  // search_extended: multi-line records of matching files

  /** The `-newermt` test keeping files modified on or after the date; none for an empty
      date. */
  function DateTest(searchDate: string): string {
    if searchDate != "" then "-newermt \"" + searchDate + "\" " else ""
  }

  /** The start of the extended search: regular files of the current directory matching
      the file mask. */
  function NameTest(sourceName: string): string {
    "find . -maxdepth 1 -type f -name \"" + sourceName + "\" "
  }

  /** The rest of the extended search: concatenate the files, drop empty lines, start a
      record at each time-stamped line and print the records matching `searchStr`. */
  function RecordFilter(searchStr: string): string {
    "-exec cat {} /dev/null \\; | " +
    "awk 'NF' |" +
    "sed -E 's/^[0-9]{4}-[0-9]{2}-[0-9]{2} [0-9]{2}:[0-9]{2}:[0-9]{2},[0-9]{3}/\\n\\n&/' | " +
    "awk 'BEGIN { RS = \"\\n\\n\"; ORS=\"\"} /" + searchStr + "/ {print}' "
  }

  /** The shell command `search_extended` runs, once its `%`-formatting succeeded. */
  function SearchExtendedCommand(sourceName: string, searchStr: string, searchDate: string): string {
    NameTest(sourceName) + DateTest(searchDate) + RecordFilter(searchStr)
  }

  lemma SlicesOfAppend(a: string, b: string, c: string)
    ensures (a + c)[..|a|] == a && (a + c)[|a|..] == c
    ensures a + b + c == (a + c)[..|a|] + b + (a + c)[|a|..]
  {
  }

  /** The date test is there exactly when the date is not empty. */
  lemma DateTestPresence(searchDate: string)
    ensures DateTest(searchDate) == "" <==> searchDate == ""
    ensures searchDate != "" ==> StartsWith(DateTest(searchDate), "-newermt \"")
  {
    if searchDate != "" {
      assert |DateTest(searchDate)| > 0;
    }
  }

  lemma UndatedCommand(sourceName: string, searchStr: string)
    ensures SearchExtendedCommand(sourceName, searchStr, "") == NameTest(sourceName) + RecordFilter(searchStr)
  {
    assert DateTest("") == "";
  }

  /** A date adds exactly its `-newermt "<date>"` test right after the name test and
      changes nothing else; an empty date adds nothing. */
  lemma SearchExtendedDateTest(sourceName: string, searchStr: string, searchDate: string)
    ensures var base := SearchExtendedCommand(sourceName, searchStr, "");
            var k := |NameTest(sourceName)|;
            k <= |base| && base[..k] == NameTest(sourceName) &&
            SearchExtendedCommand(sourceName, searchStr, searchDate) == base[..k] + DateTest(searchDate) + base[k..]
  {
    UndatedCommand(sourceName, searchStr);
    SlicesOfAppend(NameTest(sourceName), DateTest(searchDate), RecordFilter(searchStr));
  }

  // ---------------------------------------------------------------------------
  // The connection

  class Connection {
    const confFilename: string
    const tracer: Tracer?
    const nodegroups: seq<NodeGroup>

    /** A connection over the node groups its configuration yielded. */
    constructor (confFilename: string, tracer: Tracer?, nodegroups: seq<NodeGroup>)
      requires forall k :: 0 <= k < |nodegroups| ==> nodegroups[k].Valid() && nodegroups[k].tracer == tracer
      ensures Valid()
      ensures this.confFilename == confFilename && this.tracer == tracer && this.nodegroups == nodegroups
    {
      this.confFilename := confFilename;
      this.tracer := tracer;
      this.nodegroups := nodegroups;
    }

    /** Every group is ready for a fan-out and traces through the connection's tracer. */
    ghost predicate Valid() {
      forall k :: 0 <= k < |nodegroups| ==> nodegroups[k].Valid() && nodegroups[k].tracer == tracer
    }

    function NodegroupNames(): (r: seq<string>)
      ensures |r| == |nodegroups| && forall k :: 0 <= k < |nodegroups| ==> r[k] == nodegroups[k].name
    {
      seq(|nodegroups|, k requires 0 <= k < |nodegroups| => nodegroups[k].name)
    }

    /** The LAST group called `name`, or null when there is none. */
    method GetNodegroup(name: string) returns (r: NodeGroup?)
      ensures r == null <==> name !in NodegroupNames()
      ensures r != null ==> exists k :: 0 <= k < |nodegroups| && nodegroups[k] == r && r.name == name &&
                                        forall j :: k < j < |nodegroups| ==> nodegroups[j].name != name
    {
      r := null;
      ghost var at := -1;
      for k := 0 to |nodegroups|
        invariant r == null <==> forall j :: 0 <= j < k ==> nodegroups[j].name != name
        invariant r != null ==> 0 <= at < k && nodegroups[at] == r && r.name == name &&
                                forall j :: at < j < k ==> nodegroups[j].name != name
      {
        if nodegroups[k].name == name {
          r := nodegroups[k];
          at := k;
        }
      }
      if r == null {
        assert forall j :: 0 <= j < |nodegroups| ==> NodegroupNames()[j] != name;
      }
    }

    /** What a fan-out over the group at `ngIndex` may change. */
    ghost function Target(ngIndex: int): set<object> {
      match PyIndex(ngIndex, |nodegroups|)
      case None => {}
      case Some(k) => nodegroups[k].repr
    }

    function ExecResult(ngIndex: int, sourceName: string, cmd: string): Result<seq<string>, Fault> {
      match PyIndex(ngIndex, |nodegroups|)
      case None => Err(GroupIndexOutOfRange(ngIndex))
      case Some(k) => nodegroups[k].ExecResult(sourceName, cmd)
    }

    function ExecTrace(ngIndex: int, sourceName: string, cmd: string): seq<TraceLine> {
      match PyIndex(ngIndex, |nodegroups|)
      case None => []
      case Some(k) => nodegroups[k].ExecTrace(sourceName, cmd)
    }

    function SearchResult(ngIndex: int, sourceName: string, searchStr: string, searchDate: string)
      : Result<seq<string>, Fault>
    {
      match PyIndex(ngIndex, |nodegroups|)
      case None => Err(GroupIndexOutOfRange(ngIndex))
      case Some(k) => nodegroups[k].SearchResult(sourceName, searchStr, searchDate)
    }

    function SearchTrace(ngIndex: int, sourceName: string, searchStr: string, searchDate: string): seq<TraceLine> {
      match PyIndex(ngIndex, |nodegroups|)
      case None => []
      case Some(k) => nodegroups[k].SearchTrace(sourceName, searchStr, searchDate)
    }

    /** A command run on the group at `ngIndex`. */
    method ExecCmd(ngIndex: int, sourceName: string, cmd: string) returns (r: Result<seq<string>, Fault>)
      requires Valid()
      modifies Target(ngIndex)
      ensures r == ExecResult(ngIndex, sourceName, cmd)
      ensures tracer != null ==> tracer.lines == old(tracer.lines) + ExecTrace(ngIndex, sourceName, cmd)
    {
      var k := PyIndex(ngIndex, |nodegroups|);
      if k.None? {
        return Err(GroupIndexOutOfRange(ngIndex));
      }
      var nodegroup := nodegroups[k.value];
      r := nodegroup.ExecCmd(sourceName, cmd);
    }

    /** A search on the group at `ngIndex`. */
    method Search(ngIndex: int, sourceName: string, searchStr: string, searchDate: string)
      returns (r: Result<seq<string>, Fault>)
      requires Valid()
      modifies Target(ngIndex)
      ensures r == SearchResult(ngIndex, sourceName, searchStr, searchDate)
      ensures tracer != null ==>
        tracer.lines == old(tracer.lines) + SearchTrace(ngIndex, sourceName, searchStr, searchDate)
    {
      var k := PyIndex(ngIndex, |nodegroups|);
      if k.None? {
        return Err(GroupIndexOutOfRange(ngIndex));
      }
      var nodegroup := nodegroups[k.value];
      r := nodegroup.Search(sourceName, searchStr, searchDate);
    }

    /** Lines `numFrom` to `numTo` of `fileName` on every node of the group, a start at or
        below zero read as zero. The request is traced first, so there must be a tracer. */
    method GetFilePart(ngIndex: int, sourceName: string, fileName: string, numFrom: int, numTo: int)
      returns (r: Result<seq<string>, Fault>)
      requires Valid()
      modifies tracer, Target(ngIndex)
      ensures var from := if numFrom <= 0 then 0 else numFrom;
              var cmd := FilePartCommand(from, numTo, fileName);
              (tracer == null ==> r == Err(TracerMissing)) &&
              (tracer != null ==>
                 r == ExecResult(ngIndex, sourceName, cmd) &&
                 tracer.lines == old(tracer.lines) + [TraceLine(InfoGetLogPart(from, numTo, fileName), false)] +
                                 ExecTrace(ngIndex, sourceName, cmd))
    {
      var from := numFrom;
      if from <= 0 {
        from := 0;
      }
      var cmd := FilePartCommand(from, numTo, fileName);
      if tracer == null {
        return Err(TracerMissing);
      }
      tracer.Trace(InfoGetLogPart(from, numTo, fileName), false);
      r := ExecCmd(ngIndex, sourceName, cmd);
    }

    /** The extended search on every node of the group. A `%` in the date breaks the
        command's formatting before anything is traced; the request is traced next, so
        there must be a tracer. */
    method SearchExtended(ngIndex: int, sourceName: string, searchStr: string, searchDate: string)
      returns (r: Result<seq<string>, Fault>)
      requires Valid()
      modifies tracer, Target(ngIndex)
      ensures '%' in searchDate ==>
                r == Err(DateFormatError(searchDate)) && (tracer != null ==> tracer.lines == old(tracer.lines))
      ensures '%' !in searchDate && tracer == null ==> r == Err(TracerMissing)
      ensures '%' !in searchDate && tracer != null ==>
                var cmd := SearchExtendedCommand(sourceName, searchStr, searchDate);
                r == ExecResult(ngIndex, sourceName, cmd) &&
                tracer.lines == old(tracer.lines) + [TraceLine(InfoSearchExt(searchStr, sourceName, searchDate), false)] +
                                ExecTrace(ngIndex, sourceName, cmd)
    {
      if '%' in searchDate {
        return Err(DateFormatError(searchDate));
      }
      var cmd := SearchExtendedCommand(sourceName, searchStr, searchDate);
      if tracer == null {
        return Err(TracerMissing);
      }
      tracer.Trace(InfoSearchExt(searchStr, sourceName, searchDate), false);
      r := ExecCmd(ngIndex, sourceName, cmd);
    }

    /** A negative index picks the same group as the index it counts back to. */
    lemma NegativeIndexSameGroup(k: int, sourceName: string, cmd: string, searchStr: string, searchDate: string)
      requires 0 <= k < |nodegroups|
      ensures ExecResult(k - |nodegroups|, sourceName, cmd) == ExecResult(k, sourceName, cmd)
      ensures SearchResult(k - |nodegroups|, sourceName, searchStr, searchDate) ==
              SearchResult(k, sourceName, searchStr, searchDate)
      ensures ExecResult(|nodegroups|, sourceName, cmd) == Err(GroupIndexOutOfRange(|nodegroups|))
    {
    }
  }
}
