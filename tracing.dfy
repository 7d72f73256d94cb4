/**
  The tracing callback (`trace_fun`) and the message texts the engine gives it.
 */
module Tracing {
  import opened Text

  /** One call of the callback: the text and the error flag (false when the caller
      passes the text alone, the callback's default). */
  datatype TraceLine = TraceLine(text: string, isError: bool)

  /** The callback, modelled by the messages it has received so far. */
  class Tracer {
    var lines: seq<TraceLine>

    constructor ()
      ensures lines == []
    {
      lines := [];
    }

    method Trace(text: string, isError: bool)
      modifies this
      ensures lines == old(lines) + [TraceLine(text, isError)]
    {
      lines := lines + [TraceLine(text, isError)];
    }
  }

  // Messages of conn.py

  function ConnStart(nodeName: string): string {
    "Connecting to '" + nodeName + "'"
  }

  const ConnOk := " OK"
  const ConnFailed := " FAILED"

  function ConnClosed(nodeName: string): string {
    "Connection to '" + nodeName + "' was closed"
  }

  function InfoSearch(searchStr: string, sourceName: string, searchDate: string): string {
    "Search for '" + searchStr + "' in '" + sourceName + "' with date >= '" + searchDate + "'"
  }

  function InfoExecCmd(cmd: string): string {
    "Execute command '" + cmd + "'"
  }

  const CompletedPrefix := "Operation completed, "
  const CompletedSuffix := " line(s) found"

  function InfoOperationCompleted(count: nat): string {
    CompletedPrefix + NatToString(count) + CompletedSuffix
  }

  /** The completion message carries the line count, readable back as a decimal number. */
  lemma OperationCompletedReportsCount(count: nat)
    ensures var t := InfoOperationCompleted(count);
            var d := t[|CompletedPrefix|..|t| - |CompletedSuffix|];
            AllDigits(d) && DigitsValue(d) == count
  {
    var t := InfoOperationCompleted(count);
    assert t[|CompletedPrefix|..|t| - |CompletedSuffix|] == NatToString(count);
    NatToStringRoundTrip(count);
  }

  // Messages of logconn.py

  function InfoGetLogPart(numFrom: int, numTo: int, fileName: string): string {
    "Get lines from " + IntToString(numFrom) + " to " + IntToString(numTo) + " from file'" + fileName + "'"
  }

  function InfoSearchExt(searchStr: string, sourceName: string, searchDate: string): string {
    "Extended search for '" + searchStr + "' in files '" + sourceName + "' with date >= '" + searchDate + "'"
  }

  function ConfErrMissingTag(file: string, path: string, tag: string): string {
    "Missing configuration parameter, file: '" + file + "', path: '" + path + "', tag: '" + tag + "'"
  }

  function ConfErrMissingAttr(file: string, path: string, attr: string): string {
    "Missing configuration attribute, file: '" + file + "', path: '" + path + "', attribute: '" + attr + "'"
  }
}
