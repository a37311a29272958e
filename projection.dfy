/**
  The record read (GET /data): the file's first line is the header; every later
  line becomes a map from each header name to that line's cell in the column of
  that name. Lines arrive already split into cells.
*/
module RowProjection {
  import opened Wrappers

  /** The cell of a line in a column, or None (a null) when the line is too short. */
  function CellAt(line: seq<string>, column: nat): Option<string>
  {
    if column < |line| then Some(line[column]) else None
  }

  /** The column of a header name: the first column carrying it, as a by-name cell lookup finds it. */
  function FirstIndex(header: seq<string>, name: string): (k: nat)
    requires name in header
    ensures k < |header| && header[k] == name
    ensures forall j :: 0 <= j < k ==> header[j] != name
    decreases |header|
  {
    if header[0] == name then 0 else 1 + FirstIndex(header[1..], name)
  }

  /** `record` maps exactly the header names, each to the line's cell in that name's column. */
  predicate IsProjection(header: seq<string>, line: seq<string>, record: map<string, Option<string>>)
  {
    && record.Keys == (set h | h in header)
    && forall h :: h in record ==> h in header && record[h] == CellAt(line, FirstIndex(header, h))
  }

  /** The inner loop: one entry per header name, in header order. */
  method ProjectLine(header: seq<string>, line: seq<string>) returns (record: map<string, Option<string>>)
    ensures IsProjection(header, line, record)
  {
    record := map[];
    for k := 0 to |header|
      invariant record.Keys == (set h | h in header[..k])
      invariant forall h :: h in record ==> h in header && record[h] == CellAt(line, FirstIndex(header, h))
    {
      assert header[..k + 1] == header[..k] + [header[k]];
      record := record[header[k] := CellAt(line, FirstIndex(header, header[k]))];
    }
    assert header[..|header|] == header;
  }

  /**
    The outer loop: None when the file has no header line (the read fails);
    otherwise one record per data line, in file order, the header line itself
    not among them.
  */
  method ProjectFile(lines: seq<seq<string>>) returns (result: Option<seq<map<string, Option<string>>>>)
    ensures result.None? <==> |lines| == 0
    ensures result.Some? ==> |result.value| == |lines| - 1
    ensures result.Some? ==> forall i :: 0 <= i < |result.value| ==> IsProjection(lines[0], lines[i + 1], result.value[i])
  {
    if |lines| == 0 {
      return None;
    }
    var header := lines[0];
    var records := [];
    var i := 1;
    while i < |lines|
      invariant 1 <= i <= |lines|
      invariant |records| == i - 1
      invariant forall j :: 0 <= j < |records| ==> IsProjection(header, lines[j + 1], records[j])
    {
      var record := ProjectLine(header, lines[i]);
      records := records + [record];
      i := i + 1;
    }
    return Some(records);
  }

  /** A projected record is determined by its header and line. */
  lemma ProjectionUnique(header: seq<string>, line: seq<string>, a: map<string, Option<string>>, b: map<string, Option<string>>)
    requires IsProjection(header, line, a) && IsProjection(header, line, b)
    ensures a == b
  {
  }

  /** A header name that appears twice reads the cell of its first column. */
  lemma RepeatedHeaderReadsFirstColumn(line: seq<string>, record: map<string, Option<string>>)
    requires |line| >= 2
    requires IsProjection(["Field", "Field"], line, record)
    ensures record == map["Field" := Some(line[0])]
  {
  }
}
