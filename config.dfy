/**
  The rules logconn.py's `parse_xml_config` applies to what it reads from the
  configuration document: the `fields` mini-language of a source, the defaults of the
  `<sort>` and `<msg-column>` elements, and what a missing element or attribute does to
  the groups read so far. The elements reach the model already looked up: an attribute
  is its value or None, an element's text its text or None.
 */
module Config {
  import opened Wrappers
  import opened Errors
  import opened Text
  import opened Topology
  import opened Tracing

  // ---------------------------------------------------------------------------
  // The `fields` attribute of a source: "name[:xml], name[:xml], ..."

  /** One entry of the list: stripped, split on ':'; the first part is the field name,
      and the field is XML exactly when there are two parts and the second is "xml". */
  function FieldOf(spec: string): OutField {
    var fpair := Split(Strip(spec), ":");
    OutField(fpair[0], |fpair| == 2 && fpair[1] == "xml")
  }

  /** `f` applied to every element, in order. */
  function MapSeq<T, U>(xs: seq<T>, f: T -> U): (r: seq<U>)
    ensures |r| == |xs| && forall k :: 0 <= k < |xs| ==> r[k] == f(xs[k])
  {
    seq(|xs|, k requires 0 <= k < |xs| => f(xs[k]))
  }

  /** Mapping one more element appends its image. */
  lemma MapSeqSnoc<T, U>(xs: seq<T>, k: nat, f: T -> U)
    requires k < |xs|
    ensures MapSeq(xs[..k + 1], f) == MapSeq(xs[..k], f) + [f(xs[k])]
  {
  }

  /** The output fields of a source: none when the attribute is absent or empty,
      otherwise one per comma-separated entry. */
  function FieldsOf(fields: Option<string>): seq<OutField> {
    if fields.None? || fields.value == "" then []
    else MapSeq(Split(fields.value, ","), FieldOf)
  }

  /** The loop of `parse_xml_config` building a source's fields. */
  method ParseFields(fields: Option<string>) returns (exprFields: seq<OutField>)
    ensures exprFields == FieldsOf(fields)
    ensures fields.Some? && fields.value != "" ==> |exprFields| == |Split(fields.value, ",")|
  {
    exprFields := [];
    if fields.Some? && fields.value != "" {
      var specs := Split(fields.value, ",");
      for k := 0 to |specs|
        invariant exprFields == MapSeq(specs[..k], FieldOf)
      {
        var fpair := Split(Strip(specs[k]), ":");
        var isXml := |fpair| == 2 && fpair[1] == "xml";
        FieldOfParts(specs[k], fpair);
        MapSeqSnoc(specs, k, FieldOf);
        exprFields := exprFields + [OutField(fpair[0], isXml)];
      }
      assert specs[..|specs|] == specs;
    }
  }

  /** The field the loop builds from the parts of one entry is the entry's reading. */
  lemma FieldOfParts(spec: string, fpair: seq<string>)
    requires fpair == Split(Strip(spec), ":")
    ensures OutField(fpair[0], |fpair| == 2 && fpair[1] == "xml") == FieldOf(spec)
  {
  }

  /** How a field is written in the attribute. */
  function FieldSpec(f: OutField): string {
    f.name + (if f.isXml then ":xml" else "")
  }

  /** How each field of `fs` is written. */
  function FieldSpecs(fs: seq<OutField>): (r: seq<string>)
    ensures |r| == |fs| && forall k :: 0 <= k < |fs| ==> r[k] == FieldSpec(fs[k])
  {
    seq(|fs|, k requires 0 <= k < |fs| => FieldSpec(fs[k]))
  }

  /** The attribute text listing `fs` as configuration files write it: the entries
      joined by a comma and a space. */
  function FieldsSpec(fs: seq<OutField>): string {
    Join(FieldSpecs(fs), ", ")
  }

  /** A field name the mini-language can carry: not empty, no ',' or ':', and no
      whitespace at either end. */
  predicate PlainName(name: string) {
    name != [] && ',' !in name && ':' !in name && !IsSpace(name[0]) && !IsSpace(name[|name| - 1])
  }

  /** One entry written by `FieldSpec` reads back as the field. */
  lemma FieldSpecRoundTrip(f: OutField)
    requires PlainName(f.name)
    ensures FieldOf(FieldSpec(f)) == f
  {
    if f.isXml {
      assert FieldSpec(f) == f.name + [':'] + "xml";
      OnlyExactMarkerIsXml(f.name, "xml");
    } else {
      assert FieldSpec(f) == f.name;
      StripUntrimmed(f.name);
      NoCharNoContains(f.name, ':');
      SplitAbsent(f.name, [':']);
    }
  }

  /** A list of fields written out as a `fields` attribute reads back as that list: the
      space after each comma is cut by `strip()`. */
  lemma FieldsRoundTrip(fs: seq<OutField>)
    requires |fs| >= 1 && forall k :: 0 <= k < |fs| ==> PlainName(fs[k].name)
    ensures FieldsOf(Some(FieldsSpec(fs))) == fs
  {
    var specs := FieldSpecs(fs);
    var pieces := [specs[0]] + SpaceEach(specs[1..]);
    JoinCommaSpace(specs);
    PiecesReadBack(fs, pieces);
    SplitJoin(pieces, ',');
    assert "," == [','];
    assert pieces[0] == FieldSpec(fs[0]);
    JoinNonEmpty(pieces, ",");
  }

  /** The comma-separated pieces of a written field list, each but the first starting
      with a space, lack commas and read back as the fields. */
  lemma PiecesReadBack(fs: seq<OutField>, pieces: seq<string>)
    requires |fs| >= 1 && forall k :: 0 <= k < |fs| ==> PlainName(fs[k].name)
    requires pieces == [FieldSpecs(fs)[0]] + SpaceEach(FieldSpecs(fs)[1..])
    ensures forall k :: 0 <= k < |pieces| ==> ',' !in pieces[k]
    ensures MapSeq(pieces, FieldOf) == fs
  {
    forall k | 0 <= k < |fs| ensures ',' !in pieces[k] && FieldOf(pieces[k]) == fs[k] {
      PieceReadsBack(fs[k], pieces[k], k > 0);
    }
  }

  /** One written field, possibly after a space, lacks commas and reads back as the field. */
  lemma PieceReadsBack(f: OutField, piece: string, spaced: bool)
    requires PlainName(f.name)
    requires piece == (if spaced then [' '] + FieldSpec(f) else FieldSpec(f))
    ensures ',' !in piece && FieldOf(piece) == f
  {
    FieldSpecRoundTrip(f);
    SpecLacksComma(f);
    if spaced {
      FieldOfSpaced(FieldSpec(f));
    }
  }

  lemma SpecLacksComma(f: OutField)
    requires ',' !in f.name
    ensures ',' !in FieldSpec(f)
  {
    assert ',' !in ":xml";
  }

  /** A space before an entry does not change its reading. */
  lemma FieldOfSpaced(spec: string)
    ensures FieldOf([' '] + spec) == FieldOf(spec)
  {
    StripLeadingSpace(' ', spec);
  }

  /** Joining pieces whose first is not empty gives a non-empty text. */
  lemma JoinNonEmpty(parts: seq<string>, sep: string)
    requires |parts| >= 1 && parts[0] != ""
    ensures Join(parts, sep) != ""
  {
    if |parts| > 1 {
      assert Join(parts, sep) == parts[0] + sep + Join(parts[1..], sep);
    }
  }

  /** Only the exact marker "xml" makes an XML field; any other second part (such as
      " xml" with a space) leaves the field plain, under the name before the ':'. */
  lemma OnlyExactMarkerIsXml(name: string, marker: string)
    requires name != [] && !IsSpace(name[0]) && ':' !in name
    requires marker != [] && !IsSpace(marker[|marker| - 1]) && ':' !in marker
    ensures FieldOf(name + [':'] + marker) == OutField(name, marker == "xml")
  {
    var s := name + [':'] + marker;
    assert s[0] == name[0] && s[|s| - 1] == marker[|marker| - 1];
    StripUntrimmed(s);
    NoCharNoContains(name, ':');
    NoCharNoContains(marker, ':');
    SplitAtFirst(name, ':', marker);
    SplitAbsent(marker, [':']);
  }

  /** "msg : xml" is a plain field named "msg ". */
  lemma SpacedMarkerIsNotXml()
    ensures FieldOf("msg : xml") == OutField("msg ", false)
  {
    assert "msg : xml" == "msg " + [':'] + " xml";
    assert " xml" != "xml" by { assert " xml"[0] != "xml"[0]; }
    OnlyExactMarkerIsXml("msg ", " xml");
  }

  // ---------------------------------------------------------------------------
  // Flags, the <sort> element and the <msg-column> elements

  /** What reading a group's elements can run into: a missing element or attribute
      (reported and swallowed), or a flag `int()` rejects (fatal). */
  datatype ConfigError =
    | MissingTag(path: string, tag: string)
    | MissingAttr(path: string, attr: string)
    | NotAnInteger(text: string)

  /** `bool(int(text))`: whether the flag is a non-zero integer. */
  function Flag(text: string): (r: Result<bool, ConfigError>)
    ensures r.Err? <==> ParseInt(text).None?
    ensures r.Err? ==> r.error == NotAnInteger(text)
    ensures r.Ok? ==> r.value == (ParseInt(text).value != 0)
  {
    match ParseInt(text)
    case None => Err(NotAnInteger(text))
    case Some(v) => Ok(v != 0)
  }

  /** The defaults "0" and "1" read as off and on. */
  lemma DefaultFlags()
    ensures Flag("0") == Ok(false) && Flag("1") == Ok(true)
  {
    assert IntToString(0) == [DigitChar(0)] == "0";
    assert IntToString(1) == [DigitChar(1)] == "1";
    ParseIntOfIntToString(0);
    ParseIntOfIntToString(1);
  }

  /** A `<sort>` element: its `active` attribute and its text, each possibly absent. */
  datatype SortElement = SortElement(active: Option<string>, text: Option<string>)

  /** The group's sort pattern. Without a `<sort>` element sorting is off and the
      pattern is empty; with one, `active` defaults to "1", so a `<sort>` without the
      attribute sorts. */
  function SortPatternOf(e: Option<SortElement>): (r: Result<SortPattern, ConfigError>)
    ensures e.None? ==> r == Ok(SortPattern(Some(""), false))
    ensures e.Some? && e.value.active.None? ==> r == Ok(SortPattern(e.value.text, true))
    ensures e.Some? && e.value.active.Some? ==>
              (r.Err? <==> ParseInt(e.value.active.value).None?) &&
              (r.Ok? ==> r.value.expr == e.value.text &&
                         r.value.isActive == (ParseInt(e.value.active.value).value != 0))
  {
    DefaultFlags();
    var (sortActive, sortText) :=
      if e.Some? then (e.value.active.GetOr("1"), e.value.text) else ("0", Some(""));
    match Flag(sortActive)
    case Err(err) => Err(err)
    case Ok(active) => Ok(SortPattern(sortText, active))
  }

  /** An `active` attribute written as a decimal integer turns sorting on exactly when
      it is not zero. */
  lemma SortActiveFlag(n: int, text: Option<string>)
    ensures SortPatternOf(Some(SortElement(Some(IntToString(n)), text))) == Ok(SortPattern(text, n != 0))
  {
    ParseIntOfIntToString(n);
  }

  /** A `<msg-column>` element: where it is, its `name` and `main` attributes and its
      text, each possibly absent. */
  datatype ColumnElement = ColumnElement(path: string, name: Option<string>, main: Option<string>, text: Option<string>)

  /** `get_attr`: an attribute that is absent or empty is a missing attribute. */
  function RequiredAttr(path: string, attr: string, value: Option<string>): (r: Result<string, ConfigError>)
    ensures r.Ok? <==> value.Some? && value.value != ""
    ensures r.Ok? ==> r.value == value.value
    ensures r.Err? ==> r.error == MissingAttr(path, attr)
  {
    if value.None? || value.value == "" then Err(MissingAttr(path, attr)) else Ok(value.value)
  }

  /** One display column: the name is required, `main` defaults to "0". */
  function ColumnPatternOf(e: ColumnElement): (r: Result<ColumnPattern, ConfigError>)
    ensures (e.name.None? || e.name.value == "") ==> r == Err(MissingAttr(e.path, "name"))
    ensures r.Ok? ==> r.value.name == e.name.value && r.value.expr == e.text
    ensures e.name.Some? && e.name.value != "" && e.main.None? ==> r == Ok(ColumnPattern(e.name.value, e.text, false))
  {
    DefaultFlags();
    match RequiredAttr(e.path, "name", e.name)
    case Err(err) => Err(err)
    case Ok(name) =>
      match Flag(e.main.GetOr("0"))
      case Err(err) => Err(err)
      case Ok(isMain) => Ok(ColumnPattern(name, e.text, isMain))
  }

  /** Every element read in order, or the error of the first element that cannot be read. */
  function ReadAll<T, U>(es: seq<T>, read: T -> Result<U, ConfigError>): Result<seq<U>, ConfigError>
    decreases |es|
  {
    if es == [] then Ok([])
    else
      var init := ReadAll(es[..|es| - 1], read);
      var last := read(es[|es| - 1]);
      if init.Err? then init
      else if last.Err? then Err(last.error)
      else Ok(init.value + [last.value])
  }

  /** An element that reads, added at the end, adds its reading at the end. */
  lemma ReadAllSnoc<T, U>(init: seq<T>, last: T, read: T -> Result<U, ConfigError>)
    requires ReadAll(init, read).Ok? && read(last).Ok?
    ensures ReadAll(init + [last], read) == Ok(ReadAll(init, read).value + [read(last).value])
  {
    assert (init + [last])[..|init|] == init;
  }

  /** Everything read is the reading of the element at the same position. */
  lemma {:induction false} ReadAllPointwise<T, U>(es: seq<T>, read: T -> Result<U, ConfigError>)
    requires ReadAll(es, read).Ok?
    ensures |ReadAll(es, read).value| == |es|
    ensures forall k :: 0 <= k < |es| ==> read(es[k]) == Ok(ReadAll(es, read).value[k])
    decreases |es|
  {
    if es != [] {
      var init, last := es[..|es| - 1], es[|es| - 1];
      assert es == init + [last];
      ReadAllPointwise(init, read);
      var c0 := ReadAll(init, read).value;
      ReadAllSnoc(init, last, read);
      var cs := c0 + [read(last).value];
      forall k | 0 <= k < |es| ensures read(es[k]) == Ok(cs[k]) {
        if k < |init| {
          assert init[k] == es[k];
          assert cs[k] == c0[k];
        }
      }
    }
  }

  /** Once an element fails, reading any longer list fails with the error of the first
      failing element. */
  lemma {:induction false} ReadAllFirstError<T, U>(es: seq<T>, n: nat, read: T -> Result<U, ConfigError>)
    requires 0 < n <= |es| && ReadAll(es[..n - 1], read).Ok? && read(es[n - 1]).Err?
    ensures ReadAll(es, read) == Err(read(es[n - 1]).error)
    decreases |es|
  {
    if |es| == n {
      assert es[..n] == es;
      assert es[..|es| - 1] == es[..n - 1];
    } else {
      assert es[..|es| - 1][..n - 1] == es[..n - 1];
      ReadAllFirstError(es[..|es| - 1], n, read);
    }
  }

  /** The columns of a group, in order, or the first element's error. */
  function ColumnsOf(es: seq<ColumnElement>): Result<seq<ColumnPattern>, ConfigError> {
    ReadAll(es, ColumnPatternOf)
  }

  /** Every column read is the reading of the element at the same position. */
  lemma ColumnsOfPointwise(es: seq<ColumnElement>)
    requires ColumnsOf(es).Ok?
    ensures |ColumnsOf(es).value| == |es|
    ensures forall k :: 0 <= k < |es| ==> ColumnPatternOf(es[k]) == Ok(ColumnsOf(es).value[k])
  {
    ReadAllPointwise(es, ColumnPatternOf);
  }

  /** The loop of `parse_xml_config` over the `<msg-column>` elements: the first bad
      element stops it. */
  method ParseColumns(es: seq<ColumnElement>) returns (r: Result<seq<ColumnPattern>, ConfigError>)
    ensures r == ColumnsOf(es)
    ensures r.Ok? ==> |r.value| == |es| && forall k :: 0 <= k < |es| ==> ColumnPatternOf(es[k]) == Ok(r.value[k])
  {
    var ptMsgColumns: seq<ColumnPattern> := [];
    for k := 0 to |es|
      invariant ColumnsOf(es[..k]) == Ok(ptMsgColumns)
    {
      assert es[..k + 1][..k] == es[..k];
      var c := ColumnPatternOf(es[k]);
      if c.Err? {
        FirstErrorStops(es, k + 1);
        return Err(c.error);
      }
      ptMsgColumns := ptMsgColumns + [c.value];
    }
    assert es[..|es|] == es;
    r := Ok(ptMsgColumns);
    ColumnsOfPointwise(es);
  }

  /** Once an element fails, the columns of any longer list fail with the error of the
      first failing element. */
  lemma FirstErrorStops(es: seq<ColumnElement>, n: nat)
    requires 0 < n <= |es| && ColumnsOf(es[..n - 1]).Ok? && ColumnPatternOf(es[n - 1]).Err?
    ensures ColumnsOf(es) == Err(ColumnPatternOf(es[n - 1]).error)
  {
    ReadAllFirstError(es, n, ColumnPatternOf);
  }

  // ---------------------------------------------------------------------------
  // What a missing element does to the groups read so far

  /** How many outcomes at the front are groups. */
  function GroupsBeforeError<G>(outcomes: seq<Result<G, ConfigError>>): (n: nat)
    ensures n <= |outcomes|
    ensures forall k :: 0 <= k < n ==> outcomes[k].Ok?
    ensures n < |outcomes| ==> outcomes[n].Err?
    decreases |outcomes|
  {
    if outcomes == [] || outcomes[0].Err? then 0 else 1 + GroupsBeforeError(outcomes[1..])
  }

  /** The message a missing element or attribute is reported with. */
  function MissingMessage(confFilename: string, err: ConfigError): string
    requires !err.NotAnInteger?
  {
    match err
    case MissingTag(path, tag) => ConfErrMissingTag(confFilename, path, tag)
    case MissingAttr(path, attr) => ConfErrMissingAttr(confFilename, path, attr)
  }

  /** The groups read from `outcomes` (each group's elements already read, in document
      order): every group up to the first error is kept; a missing element or attribute
      is reported and ends the reading; reporting without a tracer, or a bad flag, is
      fatal. */
  function LoadResult<G>(confFilename: string, hasTracer: bool, outcomes: seq<Result<G, ConfigError>>)
    : Result<seq<G>, Fault>
  {
    var n := GroupsBeforeError(outcomes);
    var groups := seq(n, k requires 0 <= k < n => outcomes[k].value);
    if n == |outcomes| then Ok(groups)
    else match outcomes[n].error
      case NotAnInteger(text) => Err(InvalidLiteral(text))
      case _ => if hasTracer then Ok(groups) else Err(TracerMissing)
  }

  /** The loop of `parse_xml_config` over the `<nodegroup>` elements, with its
      `except` clauses. */
  method LoadGroups<G>(confFilename: string, tracer: Tracer?, outcomes: seq<Result<G, ConfigError>>)
    returns (r: Result<seq<G>, Fault>)
    modifies tracer
    ensures r == LoadResult(confFilename, tracer != null, outcomes)
    ensures tracer != null ==>
      var n := GroupsBeforeError(outcomes);
      tracer.lines == old(tracer.lines) +
        (if n < |outcomes| && !outcomes[n].error.NotAnInteger?
         then [TraceLine(MissingMessage(confFilename, outcomes[n].error), false)] else [])
  {
    var nodegroups: seq<G> := [];
    var k := 0;
    while k < |outcomes| && outcomes[k].Ok?
      invariant 0 <= k <= GroupsBeforeError(outcomes)
      invariant nodegroups == seq(k, j requires 0 <= j < k => outcomes[j].value)
    {
      nodegroups := nodegroups + [outcomes[k].value];
      k := k + 1;
    }
    if k == |outcomes| {
      return Ok(nodegroups);
    }
    var err := outcomes[k].error;
    if err.NotAnInteger? {
      return Err(InvalidLiteral(err.text));
    }
    if tracer == null {
      return Err(TracerMissing);
    }
    tracer.Trace(MissingMessage(confFilename, err), false);
    r := Ok(nodegroups);
  }

  /** Groups after the first failing one are never read: whatever follows, the result is
      the same. */
  lemma {:induction false} LaterGroupsIgnored<G>(confFilename: string, hasTracer: bool,
                                                 outcomes: seq<Result<G, ConfigError>>,
                                                 more: seq<Result<G, ConfigError>>)
    requires GroupsBeforeError(outcomes) < |outcomes|
    ensures LoadResult(confFilename, hasTracer, outcomes + more) == LoadResult(confFilename, hasTracer, outcomes)
  {
    PrefixKeepsCount(outcomes, more);
    var n := GroupsBeforeError(outcomes);
    assert (outcomes + more)[n] == outcomes[n];
    var g1 := seq(n, k requires 0 <= k < n => (outcomes + more)[k].value);
    var g2 := seq(n, k requires 0 <= k < n => outcomes[k].value);
    assert g1 == g2 by {
      forall k | 0 <= k < n ensures g1[k] == g2[k] {
        assert (outcomes + more)[k] == outcomes[k];
      }
    }
  }

  lemma {:induction false} PrefixKeepsCount<G>(outcomes: seq<Result<G, ConfigError>>, more: seq<Result<G, ConfigError>>)
    requires GroupsBeforeError(outcomes) < |outcomes|
    ensures GroupsBeforeError(outcomes + more) == GroupsBeforeError(outcomes)
    decreases |outcomes|
  {
    if outcomes[0].Ok? {
      assert (outcomes + more)[1..] == outcomes[1..] + more;
      PrefixKeepsCount(outcomes[1..], more);
    }
  }

  /** With a tracer, a missing element keeps exactly the groups read before it. */
  lemma MissingKeepsEarlierGroups<G>(confFilename: string, done: seq<G>, err: ConfigError,
                                     rest: seq<Result<G, ConfigError>>)
    requires !err.NotAnInteger?
    ensures var outcomes := seq(|done|, k requires 0 <= k < |done| => Ok(done[k])) + [Err(err)] + rest;
            LoadResult(confFilename, true, outcomes) == Ok(done) &&
            LoadResult(confFilename, false, outcomes) == Err(TracerMissing)
  {
    var oks: seq<Result<G, ConfigError>> := seq(|done|, k requires 0 <= k < |done| => Ok(done[k]));
    var outcomes := oks + [Err(err)] + rest;
    OkPrefixCount(oks, [Err(err)] + rest);
    assert outcomes == oks + ([Err(err)] + rest);
    var n := |done|;
    assert outcomes[n] == Err(err);
    var groups := seq(n, k requires 0 <= k < n => outcomes[k].value);
    assert groups == done by {
      forall k | 0 <= k < n ensures groups[k] == done[k] {
        assert outcomes[k] == oks[k];
      }
    }
  }

  lemma {:induction false} OkPrefixCount<G>(oks: seq<Result<G, ConfigError>>, rest: seq<Result<G, ConfigError>>)
    requires forall k :: 0 <= k < |oks| ==> oks[k].Ok?
    requires rest != [] && rest[0].Err?
    ensures GroupsBeforeError(oks + rest) == |oks|
    decreases |oks|
  {
    if oks == [] {
      assert oks + rest == rest;
    } else {
      assert (oks + rest)[1..] == oks[1..] + rest;
      OkPrefixCount(oks[1..], rest);
    }
  }
}
