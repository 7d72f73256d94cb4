/**
  The value classes of the topology (conn.py): patterns, output fields and sources.
  They are built once from the configuration and never change.
 */
module Topology {
  import opened Wrappers

  /** How to extract a sort key from a result line: the regex text (absent when the
      `<sort>` tag has no text) and whether sorting is switched on. */
  datatype SortPattern = SortPattern(expr: Option<string>, isActive: bool)

  /** One display column of the message list. */
  datatype ColumnPattern = ColumnPattern(name: string, expr: Option<string>, isMain: bool)

  /** The sort pattern (which a caller may leave out) and the display columns. */
  datatype Patterns = Patterns(sort: Option<SortPattern>, msgColumns: seq<ColumnPattern>)

  /** One field of a database row and whether its value is XML to be pretty-printed. */
  datatype OutField = OutField(name: string, isXml: bool)

  /** A search target: its display name, its file mask or table (`sourceName`), the
      command or statement template and the fields of the rows it returns. */
  datatype Source = Source(name: string, sourceName: string, expr: string, fields: seq<OutField>)
}
