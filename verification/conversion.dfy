/** The pure parts of `convert_dta`: the Stata-version table, the truncation
    of variable labels, and the write-then-repair-then-retry control flow.

    pandas' reader and writer and the `anyascii` transliteration are not
    modelled: the data read from the input is the `Source` value, the writer
    is the parameter `write`, and the transliteration is the parameter
    `translit`. */
module Conversion {
  import opened Results

  /** Stata versions to the dta format revision pandas writes for them; `None`
      asks pandas for its own default revision. */
  const VersionMap: map<int, Option<int>> := map[
    10 := Some(114), 11 := Some(114), 12 := Some(114),
    13 := Some(117),
    14 := Some(118),
    15 := None, 16 := None, 17 := None]

  /** `map_versions[target_version]`: versions outside the table raise
      `KeyError`. */
  function FormatRevision(targetVersion: int): (r: Result<Option<int>, Error>)
    ensures r.Success? <==> 10 <= targetVersion <= 17
    ensures r.Failure? ==> r.error == KeyError(targetVersion)
    ensures r.Success? ==> (r.value.None? <==> targetVersion >= 15)
  {
    if targetVersion in VersionMap then Success(VersionMap[targetVersion])
    else Failure(KeyError(targetVersion))
  }

  /** The revisions the table names. */
  lemma FormatRevisionValues()
    ensures forall v :: 10 <= v <= 12 ==> FormatRevision(v) == Success(Some(114))
    ensures FormatRevision(13) == Success(Some(117))
    ensures FormatRevision(14) == Success(Some(118))
    ensures forall v :: 15 <= v <= 17 ==> FormatRevision(v) == Success(None)
  {
  }

  /** A newer Stata version never gets an older explicit format revision. */
  lemma FormatRevisionMonotone(v: int, w: int)
    requires 10 <= v <= w <= 14
    ensures FormatRevision(v).Success? && FormatRevision(v).value.Some?
    ensures FormatRevision(w).Success? && FormatRevision(w).value.Some?
    ensures FormatRevision(v).value.value <= FormatRevision(w).value.value
  {
  }

  /** The longest variable label the dta format stores. */
  const MaxLabelLength: nat := 80

  /** One label cut to at most `MaxLabelLength` characters: Python's
      `val[:80]` applied when `len(val) >= 80`. */
  function TruncateLabel(value: string): (r: string)
    ensures r <= value
    ensures |r| == if |value| < MaxLabelLength then |value| else MaxLabelLength
  {
    if |value| >= MaxLabelLength then value[..MaxLabelLength] else value
  }

  /** The labels after the truncation pass: same keys, every label the
      longest prefix of the original that fits. */
  function TruncateLabels(labels: map<string, string>): (r: map<string, string>)
    ensures r.Keys == labels.Keys
    ensures forall k :: k in r ==> |r[k]| <= MaxLabelLength && r[k] <= labels[k]
    ensures forall k :: k in r && |labels[k]| <= MaxLabelLength ==> r[k] == labels[k]
    ensures forall k :: k in r && |labels[k]| >= MaxLabelLength ==> r[k] == labels[k][..MaxLabelLength]
  {
    map k | k in labels :: TruncateLabel(labels[k])
  }

  /** The truncation loop of `convert_dta`, which rewrites the dictionary in
      place one key at a time; the order of the keys does not matter. */
  method TruncateVariableLabels(labels: map<string, string>) returns (out: map<string, string>)
    ensures out == TruncateLabels(labels)
  {
    out := labels;
    var todo := labels.Keys;
    while todo != {}
      invariant todo <= labels.Keys
      invariant out.Keys == labels.Keys
      invariant forall k :: k in todo ==> out[k] == labels[k]
      invariant forall k :: k in labels && k !in todo ==> out[k] == TruncateLabel(labels[k])
      decreases todo
    {
      var key :| key in todo;
      var val := out[key];
      if |val| >= MaxLabelLength {
        out := out[key := val[..MaxLabelLength]];
      }
      todo := todo - {key};
    }
  }

  /** Truncating twice is truncating once. */
  lemma TruncateLabelsIdempotent(labels: map<string, string>)
    ensures TruncateLabels(TruncateLabels(labels)) == TruncateLabels(labels)
  {
  }

  /** A cell of a data frame: text, or a value of any other type (numbers,
      dates, missing values) that transliteration cannot take. */
  datatype Cell = Text(text: string) | NonText(tag: int)

  /** A named column of cells. */
  datatype Column = Column(name: string, cells: seq<Cell>)

  /** A data frame: its columns in order. */
  type Frame = seq<Column>

  predicate AllText(cells: seq<Cell>) {
    forall i :: 0 <= i < |cells| ==> cells[i].Text?
  }

  /** `df[col] = df[col].apply(anyascii)` inside `try ... except TypeError`:
      the first non-text cell raises, the assignment never happens, and the
      whole column keeps its values; a column of text is transliterated
      cell by cell. */
  function TransliterateColumn(col: Column, translit: string -> string): (r: Column)
    ensures r.name == col.name && |r.cells| == |col.cells|
    ensures AllText(r.cells) <==> AllText(col.cells)
    ensures !AllText(col.cells) ==> r == col
    ensures AllText(col.cells) ==> forall i :: 0 <= i < |r.cells| ==> r.cells[i] == Text(translit(col.cells[i].text))
    ensures forall i :: 0 <= i < |r.cells| && r.cells[i] != col.cells[i] ==>
              col.cells[i].Text? && r.cells[i] == Text(translit(col.cells[i].text))
  {
    if AllText(col.cells) then
      Column(col.name, seq(|col.cells|, i requires 0 <= i < |col.cells| => Text(translit(col.cells[i].text))))
    else col
  }

  /** The repair pass over every column of the frame. */
  function RepairFrame(frame: Frame, translit: string -> string): (r: Frame)
    ensures |r| == |frame|
    ensures forall i :: 0 <= i < |r| ==> r[i] == TransliterateColumn(frame[i], translit)
  {
    seq(|frame|, i requires 0 <= i < |frame| => TransliterateColumn(frame[i], translit))
  }

  /** Only ASCII characters. */
  predicate IsAscii(s: string) {
    forall i :: 0 <= i < |s| ==> s[i] < 128 as char
  }

  /** When the transliteration yields ASCII, every text cell of the repaired
      frame is ASCII except in columns that also hold non-text values; the
      column names and shapes are those of the input. */
  lemma RepairFrameMakesTextAscii(frame: Frame, translit: string -> string, i: nat, j: nat)
    requires forall s :: IsAscii(translit(s))
    requires i < |frame| && j < |frame[i].cells|
    requires AllText(frame[i].cells)
    ensures RepairFrame(frame, translit)[i].name == frame[i].name
    ensures RepairFrame(frame, translit)[i].cells[j].Text?
    ensures IsAscii(RepairFrame(frame, translit)[i].cells[j].text)
  {
  }

  /** A frame without non-ASCII text and a transliteration that leaves ASCII
      alone: the repair changes nothing. */
  lemma RepairFrameKeepsAscii(frame: Frame, translit: string -> string)
    requires forall s :: IsAscii(s) ==> translit(s) == s
    requires forall i, j :: 0 <= i < |frame| && 0 <= j < |frame[i].cells| && frame[i].cells[j].Text? ==>
               IsAscii(frame[i].cells[j].text)
    ensures RepairFrame(frame, translit) == frame
  {
    var r := RepairFrame(frame, translit);
    forall i | 0 <= i < |frame|
      ensures r[i] == frame[i]
    {
      var col := frame[i];
      if AllText(col.cells) {
        assert r[i].cells == col.cells;
      }
    }
  }

  /** The keyword arguments `convert_dta` passes to every `to_stata` call. */
  datatype WriteOptions = WriteOptions(
    version: Option<int>,
    writeIndex: bool,
    dataLabel: string,
    variableLabels: map<string, string>)

  /** How one call to the writer ends. */
  datatype WriteOutcome = Written | EncodingFailure | OtherFailure

  /** One call to the writer: the frame and the options it was given. */
  datatype WriteCall = WriteCall(frame: Frame, options: WriteOptions)

  /** What `convert_dta` reads from its input: the data label, the variable
      labels and the full frame. */
  datatype Source = Source(dataLabel: string, variableLabels: map<string, string>, frame: Frame)

  /** The writer calls of one conversion, in order, and how it ends. */
  datatype Run = Run(writes: seq<WriteCall>, result: Result<(), Error>)

  /** The exception a failed write raises. */
  function WriteFailure(outcome: WriteOutcome): Error {
    if outcome == EncodingFailure then UnicodeEncodeError else WriteError
  }

  /** The outcome of the last write of a run that wrote at least once. */
  function LastOutcome(run: Run, write: (Frame, WriteOptions) -> WriteOutcome): WriteOutcome
    requires run.writes != []
  {
    var last := run.writes[|run.writes| - 1];
    write(last.frame, last.options)
  }

  /** `convert_dta`: look the version up, truncate the labels, write once;
      on a `UnicodeEncodeError` only, transliterate the frame and write once
      more with the same options. Any other failure, and a failure of the
      second write, propagates. */
  function ConvertDta(
    targetVersion: int,
    source: Source,
    write: (Frame, WriteOptions) -> WriteOutcome,
    translit: string -> string): (run: Run)
    ensures |run.writes| <= 2
    ensures FormatRevision(targetVersion).Failure? ==> run == Run([], Failure(KeyError(targetVersion)))
    ensures FormatRevision(targetVersion).Success? ==> run.writes != [] && run.writes[0].frame == source.frame
    ensures forall i :: 0 <= i < |run.writes| ==>
              && run.writes[i].options.version == FormatRevision(targetVersion).value
              && !run.writes[i].options.writeIndex
              && run.writes[i].options.dataLabel == source.dataLabel
              && run.writes[i].options.variableLabels == TruncateLabels(source.variableLabels)
    ensures |run.writes| == 2 <==> run.writes != [] && write(run.writes[0].frame, run.writes[0].options) == EncodingFailure
    ensures |run.writes| == 2 ==> run.writes[1].frame == RepairFrame(source.frame, translit)
    ensures run.result.Success? <==> run.writes != [] && LastOutcome(run, write) == Written
    ensures run.result.Failure? && run.writes != [] ==> run.result.error == WriteFailure(LastOutcome(run, write))
  {
    match FormatRevision(targetVersion)
    case Failure(e) => Run([], Failure(e))
    case Success(version) =>
      var options := WriteOptions(version, false, source.dataLabel, TruncateLabels(source.variableLabels));
      var first := WriteCall(source.frame, options);
      match write(first.frame, options)
      case Written => Run([first], Success(()))
      case OtherFailure => Run([first], Failure(WriteError))
      case EncodingFailure =>
        var second := WriteCall(RepairFrame(source.frame, translit), options);
        match write(second.frame, options)
        case Written => Run([first, second], Success(()))
        case EncodingFailure => Run([first, second], Failure(UnicodeEncodeError))
        case OtherFailure => Run([first, second], Failure(WriteError))
  }

  /** Every version of the table passes the lookup: the conversion writes,
      and if it fails, it fails in the writer. */
  lemma SupportedVersionsReachTheWriter(targetVersion: int, source: Source,
                                        write: (Frame, WriteOptions) -> WriteOutcome, translit: string -> string)
    requires 10 <= targetVersion <= 17
    ensures ConvertDta(targetVersion, source, write, translit).writes != []
    ensures ConvertDta(targetVersion, source, write, translit).result != Failure(KeyError(targetVersion))
  {
  }

  /** Labels reach the writer cut to their first 80 characters, and shorter
      ones unchanged. */
  lemma WrittenLabelsFit(targetVersion: int, source: Source,
                         write: (Frame, WriteOptions) -> WriteOutcome, translit: string -> string, i: nat, k: string)
    requires i < |ConvertDta(targetVersion, source, write, translit).writes|
    requires k in source.variableLabels
    ensures k in ConvertDta(targetVersion, source, write, translit).writes[i].options.variableLabels
    ensures |ConvertDta(targetVersion, source, write, translit).writes[i].options.variableLabels[k]| <= MaxLabelLength
    ensures |source.variableLabels[k]| >= MaxLabelLength ==>
              ConvertDta(targetVersion, source, write, translit).writes[i].options.variableLabels[k]
              == source.variableLabels[k][..MaxLabelLength]
    ensures |source.variableLabels[k]| < MaxLabelLength ==>
              ConvertDta(targetVersion, source, write, translit).writes[i].options.variableLabels[k]
              == source.variableLabels[k]
  {
  }
}
